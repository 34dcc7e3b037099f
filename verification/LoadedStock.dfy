/** Stock level after the load (tpccgenerator.cc:199, tpcctables.cc:97): the item of a line is drawn
    from 1 to 100000 however many items there are, so that only the full-size load gives every line
    its stock row. */
module LoadedStock {
  import opened Rows
  import opened NewOrderSpec
  import opened DeliverySpec
  import opened UndoSpec
  import opened Consistency
  import opened Preservation
  import opened Generated
  import opened Generator
  import opened SmallLoads
  import opened StockLevel
  import opened Machine
  import opened Unchanged
  import opened NameIndex
  import opened Reachable

  /** Every item that the load can draw has its stock row, in every warehouse. */
  lemma DrawnItemsStocked(db: DB, load: Load, z: Settings, w: int)
    requires Loaded(db, load, z) && w in db.warehouses && z.items <= MAX_I_ID
    ensures (forall i | 1 <= i <= MAX_I_ID :: StockId(w, i) in db.stock) <==> z.items == MAX_I_ID
  {
    hide Consistent, Populated;
    if z.items < MAX_I_ID {
      assert StockId(w, MAX_I_ID) !in db.stock;
    }
  }

  // ---------------------------------------------------------------- another draw

  /** The same line for another item. */
  function Redrawn(db: DB, l: LineId, item: int): DB
    requires l in db.lines
  {
    db.(lines := db.lines[l := db.lines[l].(ol_i_id := item)])
  }

  lemma {:induction false} RedrawnDelivered(db: DB, l: LineId, item: int, k: CustId, n: int)
    requires l in db.lines
    ensures var lines := Redrawn(db, l, item).lines;
            Delivered(db.orders, db.orderRows, lines, k, n) == Delivered(db.orders, db.orderRows, db.lines, k, n)
    decreases n
  {
    if n > 0 {
      RedrawnDelivered(db, l, item, k, n - 1);
      var id := OrderId(k.w, k.d, n);
      if id in db.orders && db.orders[id] in db.orderRows {
        LineTotalSame(Redrawn(db, l, item).lines, db.lines, id, db.orderRows[db.orders[id]].o_ol_cnt);
      }
    }
  }

  lemma RedrawnBalances(db: DB, l: LineId, item: int)
    requires l in db.lines && BalancesRight(db)
    ensures BalancesRight(Redrawn(db, l, item))
  {
    var db' := Redrawn(db, l, item);
    forall k | k in db'.customers ensures BalanceRight(db', k) {
      assert BalanceRight(db, k);
      var dk := DistId(k.w, k.d);
      if dk in db.districts {
        RedrawnDelivered(db, l, item, k, db.districts[dk].d_next_o_id - 1);
      }
    }
  }

  lemma RedrawnOrders(db: DB, l: LineId, item: int)
    requires l in db.lines && IndexAgreement(db) && OrdersSound(db) && LinesSound(db) && Queue(db) && EveryoneOrdered(db)
    ensures var db' := Redrawn(db, l, item);
            IndexAgreement(db') && OrdersSound(db') && LinesSound(db') && Queue(db') && EveryoneOrdered(db')
  {
    SameIndex(db, Redrawn(db, l, item));
  }

  /** A load that draws another item for one line is a load too. */
  lemma RedrawnLoaded(db: DB, load: Load, z: Settings, l: LineId, item: int)
    requires Loaded(db, load, z) && l in db.lines && 1 <= item <= MAX_I_ID
    ensures Loaded(Redrawn(db, l, item), load, z)
  {
    hide Population, IndexAgreement, Dense, Queue, OrdersSound, LinesSound, EveryoneOrdered, BalancesRight, YtdRight,
      RefsBelow, StockRight, Populated, RowsMade;
    RedrawnOrders(db, l, item);
    RedrawnBalances(db, l, item);
    RedrawnRest(db, load, l, item);
    RedrawnPopulated(db, l, item, z.customers, z.FirstNew());
    RedrawnRows(db, l, item, z.now, z.customers, z.FirstNew());
  }

  lemma RedrawnRest(db: DB, load: Load, l: LineId, item: int)
    requires l in db.lines && RefsBelow(db, db.nextRef) && Population(db) && Dense(db) && YtdRight(db, load) && StockRight(db, load)
    ensures var db' := Redrawn(db, l, item);
            RefsBelow(db', db'.nextRef) && Population(db') && Dense(db') && YtdRight(db', load) && StockRight(db', load)
  {
  }

  lemma RedrawnRows(db: DB, l: LineId, item: int, now: string, c: nat, first: int)
    requires l in db.lines && RowsMade(db, now, c, first) && 1 <= item <= MAX_I_ID
    ensures RowsMade(Redrawn(db, l, item), now, c, first)
  {
    assert LineMade(l, db.lines[l], l.o >= first, now);
  }

  lemma RedrawnPopulated(db: DB, l: LineId, item: int, c: nat, first: int)
    requires l in db.lines && Populated(db, c, first)
    ensures Populated(Redrawn(db, l, item), c, first)
  {
  }

  lemma LastLine(db: DB, load: Load, z: Settings, dk: DistId)
    requires Loaded(db, load, z) && dk in db.districts && z.customers >= 1
    ensures LineId(dk.w, dk.d, z.customers, 1) in db.lines
  {
    hide Population, Queue, EveryoneOrdered, BalancesRight, YtdRight, RefsBelow, StockRight;
    assert OrderId(dk.w, dk.d, z.customers) in db.orders;
    assert 1 <= OrderAt(db, OrderId(dk.w, dk.d, z.customers)).o_ol_cnt;
  }

  /** Whatever the other sizes are, with fewer items some load leaves a line among the last 20 orders
      of a district whose stock row is missing ... */
  lemma MissingRow(db: DB, load: Load, z: Settings, dk: DistId) returns (other: DB)
    requires Loaded(db, load, z) && dk in db.districts && z.customers >= 1 && z.items < MAX_I_ID
    ensures var l := LineId(dk.w, dk.d, z.customers, 1); l in db.lines && other == Redrawn(db, l, MAX_I_ID)
    ensures Loaded(other, load, z) && dk in other.districts && !LastOrdersStocked(other, dk)
  {
    hide Loaded, LastOrdersStocked;
    var l := LineId(dk.w, dk.d, z.customers, 1);
    LastLine(db, load, z, dk);
    other := Redrawn(db, l, MAX_I_ID);
    RedrawnLoaded(db, load, z, l, MAX_I_ID);
    RedrawnMissing(db, load, z, dk, l);
  }

  lemma RedrawnMissing(db: DB, load: Load, z: Settings, dk: DistId, l: LineId)
    requires Loaded(db, load, z) && dk in db.districts && z.items < MAX_I_ID
    requires l == LineId(dk.w, dk.d, z.customers, 1) && l in db.lines
    ensures !LastOrdersStocked(Redrawn(db, l, MAX_I_ID), dk)
  {
    hide Consistent;
    assert DistOf(OrderOfLine(l)) == dk && !LineStocked(Redrawn(db, l, MAX_I_ID), l);
  }

  lemma AllStocked(db: DB, load: Load, z: Settings)
    requires Loaded(db, load, z) && z.items == MAX_I_ID
    ensures forall l | l in db.lines :: LineStocked(db, l)
  {
    hide Population, Dense, Queue, EveryoneOrdered, BalancesRight, YtdRight, RefsBelow, StockRight;
    forall l | l in db.lines ensures LineStocked(db, l) {
      LineOfDistrict(db, load, l);
    }
  }

  lemma LineOfDistrict(db: DB, load: Load, l: LineId)
    requires Consistent(db, load) && l in db.lines
    ensures DistOf(OrderOfLine(l)) in db.districts
  {
    hide Population, Queue, OrdersSound, EveryoneOrdered, BalancesRight, YtdRight, RefsBelow, StockRight;
    assert OrderOfLine(l) in db.orders;
  }

  /** ... and exactly the loads with all items leave none missing. */
  lemma LoadsStocked(db: DB, load: Load, z: Settings, dk: DistId)
    requires Loaded(db, load, z) && dk in db.districts && z.customers >= 1 && z.items <= MAX_I_ID
    ensures (forall other: DB | Loaded(other, load, z) :: LastOrdersStocked(other, dk)) <==> z.items == MAX_I_ID
  {
    hide Consistent;
    if z.items < MAX_I_ID {
      var other := MissingRow(db, load, z, dk);
      assert !LastOrdersStocked(other, dk);
    } else {
      forall other: DB | Loaded(other, load, z) ensures LastOrdersStocked(other, dk) {
        AllStocked(other, load, z);
      }
    }
  }

  // ---------------------------------------------------------------- after any run

  /** A line has its stock row if all items were loaded, or if its order is not one of the load. */
  lemma LineOfRun(db: DB, d: DB, load: Load, z: Settings, l: LineId)
    requires Loaded(db, load, z) && Keeps(db, d) && l in d.lines && (z.items == MAX_I_ID || l.o > z.customers)
    ensures LineStocked(d, l)
  {
    hide Consistent, Populated;
    assert LineKnown(db, d, l);
    if l in db.lines && db.lines[l].ol_i_id == d.lines[l].ol_i_id {
      OldLine(db, load, z, l);
      if z.items == MAX_I_ID { AllStocked(db, load, z); }
    }
  }

  /** After the full-size load every line has its stock row, in every state of every run, and every
      warehouse keeps a row for every item. */
  lemma {:induction false} FullLoadStocked(db: DB, load: Load, z: Settings, steps: seq<Step>)
    requires Loaded(db, load, z) && AllEnabled(State(db, []), steps) && z.items == MAX_I_ID
    ensures var d := Run(State(db, []), steps).db;
            && (forall l | l in d.lines :: LineStocked(d, l))
            && forall w, i | w in d.warehouses && 1 <= i <= |d.items| :: StockId(w, i) in d.stock
  {
    hide Consistent, Populated, Run, AllEnabled, SameNames, LinesKnown, LineStocked;
    RunKeeps(db, steps, load);
    var d := Run(State(db, []), steps).db;
    forall l | l in d.lines ensures LineStocked(d, l) {
      LineOfRun(db, d, load, z, l);
    }
  }

  /** In every state of every run, stock level finds what it reads if all items were loaded, and
      otherwise once 20 orders of the district have been made since the load. */
  lemma {:induction false} StockLevelReady(db: DB, load: Load, z: Settings, steps: seq<Step>, dk: DistId)
    requires Loaded(db, load, z) && AllEnabled(State(db, []), steps) && dk in Run(State(db, []), steps).db.districts
    requires z.items == MAX_I_ID
             || Run(State(db, []), steps).db.districts[dk].d_next_o_id - STOCK_LEVEL_ORDERS > z.customers
    ensures var d := Run(State(db, []), steps).db;
            IndexAgreement(d) && OrdersSound(d) && LinesSound(d) && LastOrdersStocked(d, dk)
  {
    hide Loaded, Run, AllEnabled, Keeps, LineStocked;
    var d := Run(State(db, []), steps).db;
    StateOfRun(db, load, z, steps);
    forall l | l in d.lines && (z.items == MAX_I_ID || l.o > z.customers) ensures LineStocked(d, l) {
      LineOfRun(db, d, load, z, l);
    }
  }

  lemma {:induction false} StateOfRun(db: DB, load: Load, z: Settings, steps: seq<Step>)
    requires Loaded(db, load, z) && AllEnabled(State(db, []), steps)
    ensures Consistent(Run(State(db, []), steps).db, load) && Keeps(db, Run(State(db, []), steps).db)
  {
    hide Consistent, Populated, Run, AllEnabled, Keeps;
    AlwaysConsistent(db, load, steps);
    RunKeeps(db, steps, load);
  }

  lemma OldLine(db: DB, load: Load, z: Settings, l: LineId)
    requires Loaded(db, load, z) && l in db.lines
    ensures l.o <= z.customers
  {
    hide Population, Queue, OrdersSound, EveryoneOrdered, BalancesRight, YtdRight, RefsBelow, StockRight;
    assert OrderOfLine(l) in db.orders;
  }

  /** So stock level can meet a missing row right after a load with one item and 20 customers: the line
      that draws item 100000 is in the last order. */
  lemma RowMissingAfterLoad() returns (db: DB, load: Load)
    ensures Loaded(db, load, SmallSettings(20, 20)) && HOME in db.districts
    ensures db.districts[HOME].d_next_o_id > STOCK_LEVEL_ORDERS && !LastOrdersStocked(db, HOME)
  {
    hide Consistent, RowsMade;
    var small;
    small, load := SmallLoad(20, 20);
    db := MissingRow(small, load, SmallSettings(20, 20), HOME);
  }
}
