/** Whole runs: transactions with fresh or shared undo buffers, undoing newest-first, committing. */
module Machine {
  import opened Rows
  import opened NewOrderSpec
  import opened PaymentSpec
  import opened DeliverySpec
  import opened UndoSpec
  import opened Consistency
  import opened Preservation

  datatype Command =
    | CNewOrder(dk: DistId, c: int, items: seq<NewOrderItem>, now: string, ws: seq<int>)
    | CPayment(dk: DistId, cust: CustId, amount: int, now: string, record: string)
    | CDelivery(w: int, carrier: int, now: string)

  /** An undo buffer that is still held. `base`, the database when the buffer was fresh, is there
      for the proof only: no step looks at it. */
  datatype Frame = Frame(undo: Undo, base: DB)

  datatype State = State(db: DB, stack: seq<Frame>)

  /** A transaction gets a null undo pointer, or one to the newest buffer; the newest buffer is
      applied; the oldest is freed. */
  datatype Step = Fresh(cmd: Command) | Extend(cmd: Command) | UndoNewest | FreeOldest

  ghost predicate Ready(db: DB, cmd: Command) {
    match cmd
    case CNewOrder(dk, c, items, now, ws) =>
      OrderArguments(db, dk, c, items, now) && Enumerates(ws, RemoteWarehouses(dk.w, items))
    case CPayment(dk, cust, amount, now, record) => PaymentReady(db, dk, cust, record)
    case CDelivery(w, carrier, now) => AllReady(db) && 1 <= carrier <= 10 && now != ""
  }

  /** An order with an unknown item is refused before anything is allocated. */
  predicate Refused(db: DB, cmd: Command) {
    cmd.CNewOrder? && !ItemsValid(db, cmd.items)
  }

  ghost function Do(t: Tx, cmd: Command): Tx
    requires Ready(t.db, cmd)
  {
    match cmd
    case CNewOrder(dk, c, items, now, ws) => NewOrder(t, dk, c, items, now, ws)
    case CPayment(dk, cust, amount, now, record) => Payment(t, dk, cust, amount, now, record)
    case CDelivery(w, carrier, now) => Delivery(t, w, carrier, now, DISTRICTS)
  }

  function Newest(s: State): Frame
    requires s.stack != []
  {
    s.stack[|s.stack| - 1]
  }

  ghost predicate Enabled(s: State, step: Step) {
    match step
    case Fresh(cmd) => Ready(s.db, cmd)
    case Extend(cmd) => s.stack != [] && Ready(s.db, cmd)
    case UndoNewest =>
      && s.stack != [] && NewOrdersUndoable(Tx(s.db, Newest(s).undo))
      && |Newest(s).undo.insertedHistory| <= |s.db.history|
    case FreeOldest => s.stack != []
  }

  ghost function Exec(s: State, step: Step): State
    requires Enabled(s, step)
  {
    match step
    case Fresh(cmd) =>
      if Refused(s.db, cmd) then s
      else var t := Do(Tx(s.db, EMPTY_UNDO), cmd); State(t.db, s.stack + [Frame(t.undo, s.db)])
    case Extend(cmd) =>
      var t := Do(Tx(s.db, Newest(s).undo), cmd);
      State(t.db, s.stack[|s.stack| - 1 := Newest(s).(undo := t.undo)])
    case UndoNewest => State(ApplyUndo(Tx(s.db, Newest(s).undo)), s.stack[..|s.stack| - 1])
    case FreeOldest => s.(stack := s.stack[1..])
  }

  ghost predicate AllEnabled(s: State, steps: seq<Step>)
    decreases |steps|
  {
    steps == [] || (Enabled(s, steps[0]) && AllEnabled(Exec(s, steps[0]), steps[1..]))
  }

  ghost function Run(s: State, steps: seq<Step>): State
    requires AllEnabled(s, steps)
    decreases |steps|
  {
    if steps == [] then s else Run(Exec(s, steps[0]), steps[1..])
  }

  // ---------------------------------------------------------------- the invariant of a run

  /** The database that buffer `i` leads to: where the next buffer began, or the present one. */
  function Reached(db: DB, stack: seq<Frame>, i: nat): DB
    requires i < |stack|
  {
    if i + 1 < |stack| then stack[i + 1].base else db
  }

  ghost predicate FrameOk(db: DB, stack: seq<Frame>, i: nat, load: Load)
    requires i < |stack|
  {
    Consistent(stack[i].base, load) && Covers(stack[i].base, Tx(Reached(db, stack, i), stack[i].undo))
  }

  ghost predicate Sound(s: State, load: Load) {
    Consistent(s.db, load) && forall i | 0 <= i < |s.stack| :: FrameOk(s.db, s.stack, i, load)
  }

  lemma DoConsistent(t: Tx, cmd: Command, load: Load)
    requires Consistent(t.db, load) && Ready(t.db, cmd)
    ensures Consistent(Do(t, cmd).db, load)
  {
    match cmd
    case CNewOrder(dk, c, items, now, ws) => NewOrderConsistent(t, dk, c, items, now, ws, load);
    case CPayment(dk, cust, amount, now, record) => PaymentConsistent(t, dk, cust, amount, now, record, load);
    case CDelivery(w, carrier, now) => DeliveryConsistent(t, w, carrier, now, DISTRICTS, load);
  }

  lemma DoCovers(base: DB, t: Tx, cmd: Command, load: Load)
    requires Covers(base, t) && Consistent(t.db, load) && Ready(t.db, cmd)
    ensures Covers(base, Do(t, cmd))
  {
    match cmd
    case CNewOrder(dk, c, items, now, ws) =>
      NewOrderConsistent(t, dk, c, items, now, ws, load);
      NewOrderCovers(base, t, dk, c, items, now, ws);
    case CPayment(dk, cust, amount, now, record) => PaymentCovers(base, t, dk, cust, amount, now, record);
    case CDelivery(w, carrier, now) => DeliveryCovers(base, t, w, carrier, now, DISTRICTS);
  }

  lemma LaterOrders(db: DB, n: Ref)
    requires IndexAgreement(db) && OrdersSound(db) && LinesSound(db) && Queue(db) && EveryoneOrdered(db)
    ensures var d := db.(nextRef := n);
            IndexAgreement(d) && OrdersSound(d) && LinesSound(d) && Queue(d) && EveryoneOrdered(d)
  {
    SameOrders(db, db.(nextRef := n));
  }

  lemma LaterBalances(db: DB, n: Ref)
    requires BalancesRight(db)
    ensures BalancesRight(db.(nextRef := n))
  {
    forall k | k in db.customers ensures BalanceRight(db.(nextRef := n), k) {
      assert BalanceRight(db, k);
    }
  }

  lemma LaterRest(db: DB, n: Ref, load: Load)
    requires RefsBelow(db, db.nextRef) && db.nextRef <= n && Population(db) && Dense(db)
    requires YtdRight(db, load) && StockRight(db, load)
    ensures var d := db.(nextRef := n);
            RefsBelow(d, n) && Population(d) && Dense(d) && YtdRight(d, load) && StockRight(d, load)
  {
  }

  /** Addresses handed out meanwhile do not matter. */
  lemma LaterRefs(db: DB, n: Ref, load: Load)
    requires Consistent(db, load) && db.nextRef <= n
    ensures Consistent(db.(nextRef := n), load)
  {
    hide Population, IndexAgreement, Dense, Queue, OrdersSound, LinesSound, EveryoneOrdered, BalancesRight, YtdRight,
      RefsBelow, StockRight;
    LaterOrders(db, n);
    LaterBalances(db, n);
    LaterRest(db, n, load);
  }

  lemma LaterRefsCover(base: DB, t: Tx, n: Ref)
    requires Covers(base, t) && t.db.nextRef <= n
    ensures Covers(base, Tx(t.db.(nextRef := n), t.undo))
  {
    hide RestoresTo, RowsCover, IndexCovers, HistoryCovers, QueueCovers;
  }

  lemma FreshBuffer(db: DB, load: Load)
    requires Consistent(db, load)
    ensures Covers(db, Tx(db, EMPTY_UNDO))
  {
    hide Population, IndexAgreement, Dense, OrdersSound, LinesSound, EveryoneOrdered, BalancesRight, YtdRight,
      RefsBelow, StockRight, Covers;
    FreshCovers(db);
  }

  lemma FreshSound(s: State, cmd: Command, load: Load)
    requires Sound(s, load) && Ready(s.db, cmd)
    ensures Sound(Exec(s, Fresh(cmd)), load)
  {
    hide Consistent, Covers, Do, Ready, Refused, NewOrdersUndoable, ApplyUndo;
    var t := Tx(s.db, EMPTY_UNDO);
    FreshBuffer(s.db, load);
    DoConsistent(t, cmd, load);
    DoCovers(s.db, t, cmd, load);
    var s' := Exec(s, Fresh(cmd));
    forall i | 0 <= i < |s'.stack| ensures FrameOk(s'.db, s'.stack, i, load) {
      if i < |s.stack| { assert FrameOk(s.db, s.stack, i, load); }
    }
  }

  lemma ExtendSound(s: State, cmd: Command, load: Load)
    requires Sound(s, load) && s.stack != [] && Ready(s.db, cmd)
    ensures Sound(Exec(s, Extend(cmd)), load)
  {
    hide Consistent, Covers, Do, Ready, Refused, NewOrdersUndoable, ApplyUndo;
    var n := |s.stack| - 1;
    assert FrameOk(s.db, s.stack, n, load);
    var t := Tx(s.db, s.stack[n].undo);
    DoConsistent(t, cmd, load);
    DoCovers(s.stack[n].base, t, cmd, load);
    var s' := Exec(s, Extend(cmd));
    forall i | 0 <= i < |s'.stack| ensures FrameOk(s'.db, s'.stack, i, load) {
      assert FrameOk(s.db, s.stack, i, load);
    }
  }

  /** Applying the newest buffer gives back the database in which it was fresh. */
  lemma UndoBack(s: State, load: Load)
    requires Sound(s, load) && Enabled(s, UndoNewest)
    ensures Exec(s, UndoNewest).db == Newest(s).base.(nextRef := s.db.nextRef)
    ensures Newest(s).base.nextRef <= s.db.nextRef && Consistent(Newest(s).base, load)
  {
    hide Consistent, CoversRows, CoversOrders, CoversHistory, RefsBelow, NewOrdersUndoable, ApplyUndo;
    assert FrameOk(s.db, s.stack, |s.stack| - 1, load);
    UndoRestores(Newest(s).base, Tx(s.db, Newest(s).undo));
  }

  lemma UndoSound(s: State, load: Load)
    requires Sound(s, load) && Enabled(s, UndoNewest)
    ensures Sound(Exec(s, UndoNewest), load)
  {
    hide Consistent, Covers, NewOrdersUndoable, ApplyUndo;
    var n, base := |s.stack| - 1, Newest(s).base;
    UndoBack(s, load);
    LaterRefs(base, s.db.nextRef, load);
    var s' := Exec(s, UndoNewest);
    forall i | 0 <= i < |s'.stack| ensures FrameOk(s'.db, s'.stack, i, load) {
      assert FrameOk(s.db, s.stack, i, load);
      if i + 1 == n {
        LaterRefsCover(s.stack[i].base, Tx(base, s.stack[i].undo), s.db.nextRef);
      }
    }
  }

  lemma FreeSound(s: State, load: Load)
    requires Sound(s, load) && s.stack != []
    ensures Sound(Exec(s, FreeOldest), load)
  {
    hide Consistent, Covers;
    var s' := Exec(s, FreeOldest);
    forall i | 0 <= i < |s'.stack| ensures FrameOk(s'.db, s'.stack, i, load) {
      assert FrameOk(s.db, s.stack, i + 1, load);
    }
  }

  lemma StepSound(s: State, step: Step, load: Load)
    requires Sound(s, load) && Enabled(s, step)
    ensures Sound(Exec(s, step), load)
  {
    hide Sound;
    match step
    case Fresh(cmd) => FreshSound(s, cmd, load);
    case Extend(cmd) => ExtendSound(s, cmd, load);
    case UndoNewest => UndoSound(s, load);
    case FreeOldest => FreeSound(s, load);
  }

  /** Every state of every run is consistent, and every buffer held can still be undone in turn. */
  lemma {:induction false} RunSound(s: State, steps: seq<Step>, load: Load)
    requires Sound(s, load) && AllEnabled(s, steps)
    ensures Sound(Run(s, steps), load)
    decreases |steps|
  {
    hide Sound;
    if steps != [] {
      StepSound(s, steps[0], load);
      RunSound(Exec(s, steps[0]), steps[1..], load);
    }
  }

  /** In every such state a delivery finds all the rows that it dereferences, and the assertion that
      the next order number is unused holds. */
  lemma NeverStuck(s: State, load: Load, w: int, carrier: int, now: string, dk: DistId, c: int)
    requires Sound(s, load) && 1 <= carrier <= 10 && now != "" && dk in s.db.districts
    ensures Ready(s.db, CDelivery(w, carrier, now)) && OrderIsNew(s.db, dk, c)
  {
    hide FrameOk, OrderIsNew, AllReady, Population, Dense, EveryoneOrdered, BalancesRight, YtdRight, RefsBelow, StockRight;
    ReadyToDeliver(s.db);
    NextIsNew(s.db, dk, c);
  }

  lemma {:induction false} DeliveryInsertsNothing(t: Tx, w: int, carrier: int, now: string, n: nat)
    requires AllReady(t.db)
    ensures Delivery(t, w, carrier, now, n).undo.insertedNewOrders == t.undo.insertedNewOrders
  {
    hide AllReady, OrderReady, Dated, SavedLines, LineTotal;
    if n > 0 {
      DeliveryInsertsNothing(t, w, carrier, now, n - 1);
    }
  }

  lemma OneKind(db: DB, cmd: Command)
    requires Ready(db, cmd)
    ensures var u := Do(Tx(db, EMPTY_UNDO), cmd).undo; u.insertedNewOrders !! u.deletedNewOrders
  {
    match cmd
    case CNewOrder(dk, c, items, now, ws) =>
      if ItemsValid(db, items) {
        assert EnterOrder(Tx(db, EMPTY_UNDO), dk, c, items, now).undo.deletedNewOrders == {};
      }
    case CPayment(dk, cust, amount, now, record) =>
    case CDelivery(w, carrier, now) => DeliveryInsertsNothing(Tx(db, EMPTY_UNDO), w, carrier, now, DISTRICTS);
  }

  /** The lowest order of a district is a matter of that district's part of the queue. */
  lemma SameLowest(a: set<OrderId>, b: set<OrderId>, dk: DistId)
    requires forall j: OrderId | DistOf(j) == dk :: j in a <==> j in b
    ensures Lowest(a, dk) == Lowest(b, dk)
  {
    var x, y := Lowest(a, dk), Lowest(b, dk);
    if x.Some? && y.Some? {
      assert x.value.o == y.value.o;
    }
  }

  lemma OneTaken(t: Tx, dk: DistId, carrier: int, now: string)
    requires AllReady(t.db)
    ensures match Lowest(t.db.newOrders, dk)
            case None => true
            case Some(id) => OrderReady(t.db, id)
                             && DeliverOrder(t, id, carrier, now).db.newOrders == t.db.newOrders - {id}
                             && DeliverOrder(t, id, carrier, now).undo.deletedNewOrders == t.undo.deletedNewOrders + {id}
  {
  }

  /** A delivery takes the lowest order out of the queue of every district 1 to `n`, and no other. */
  lemma {:induction false} DeliveredExactly(t: Tx, w: int, carrier: int, now: string, n: nat)
    requires AllReady(t.db)
    ensures var r := Delivery(t, w, carrier, now, n);
            && (forall id: OrderId :: id in r.undo.deletedNewOrders <==>
                  id in t.undo.deletedNewOrders || (id.w == w && 1 <= id.d <= n && Lowest(t.db.newOrders, DistOf(id)) == Some(id)))
            && forall id: OrderId | !(id.w == w && 1 <= id.d <= n) :: id in r.db.newOrders <==> id in t.db.newOrders
  {
    hide AllReady, DeliverOrder, IsLowest;
    if n > 0 {
      DeliveredExactly(t, w, carrier, now, n - 1);
      OneTaken(Delivery(t, w, carrier, now, n - 1), DistId(w, n), carrier, now);
      SameLowest(Delivery(t, w, carrier, now, n - 1).db.newOrders, t.db.newOrders, DistId(w, n));
    }
  }

  /** The next order of a district comes out of its queue first exactly if the queue was empty. */
  lemma LowestOfNext(queue: set<OrderId>, id: OrderId)
    requires forall j | j in queue && DistOf(j) == DistOf(id) :: j.o < id.o
    ensures Lowest(queue + {id}, DistOf(id)) == Some(id) <==> forall j | j in queue :: DistOf(j) != DistOf(id)
  {
    if j :| j in queue && DistOf(j) == DistOf(id) {
      assert j in queue + {id};
    }
  }

  lemma NextAbove(db: DB, load: Load, dk: DistId)
    requires Consistent(db, load) && dk in db.districts
    ensures forall j | j in db.newOrders && DistOf(j) == dk :: j.o < db.districts[dk].d_next_o_id
    ensures 1 <= dk.d <= DISTRICTS
  {
    hide IndexAgreement, OrdersSound, LinesSound, EveryoneOrdered, BalancesRight, YtdRight, RefsBelow, StockRight;
    forall j | j in db.newOrders && DistOf(j) == dk ensures j.o < db.districts[dk].d_next_o_id {
      assert j in db.orders;
    }
  }

  lemma OrderRecorded(t: Tx, dk: DistId, c: int, items: seq<NewOrderItem>, now: string, ws: seq<int>)
    requires NewOrderReady(t.db, dk, c, items) && ItemsValid(t.db, items)
    ensures var r, id := NewOrder(t, dk, c, items, now, ws), OrderId(dk.w, dk.d, t.db.districts[dk].d_next_o_id);
            && r.db.newOrders == t.db.newOrders + {id} && r.undo.deletedNewOrders == t.undo.deletedNewOrders
            && r.undo.insertedNewOrders == t.undo.insertedNewOrders + {id}
  {
  }

  /** One buffer for a new order and then a delivery in the same warehouse: it can be applied exactly
      if the district had an older order to deliver. With an empty queue the new order is itself
      delivered, and its NEW-ORDER row is both inserted and deleted under the buffer. */
  lemma OrderThenDelivery(s: State, load: Load, dk: DistId, c: int, items: seq<NewOrderItem>, now: string,
                          ws: seq<int>, carrier: int, later: string)
    requires Sound(s, load) && Ready(s.db, CNewOrder(dk, c, items, now, ws)) && ItemsValid(s.db, items)
    requires 1 <= carrier <= 10 && later != ""
    ensures var ordered := Exec(s, Fresh(CNewOrder(dk, c, items, now, ws)));
            && Enabled(ordered, Extend(CDelivery(dk.w, carrier, later)))
            && (Enabled(Exec(ordered, Extend(CDelivery(dk.w, carrier, later))), UndoNewest)
                <==> exists j :: j in s.db.newOrders && DistOf(j) == dk)
  {
    hide Sound, Ready, ApplyUndo, NewOrdersUndoable, ItemsValid, Exec, Delivery, NewOrder, AllReady;
    var order, deliver := CNewOrder(dk, c, items, now, ws), CDelivery(dk.w, carrier, later);
    var ordered := Exec(s, Fresh(order));
    FreshSound(s, order, load);
    MayDeliver(ordered, load, dk.w, carrier, later);
    Shared(s, order, deliver);
    ExtendSound(ordered, deliver, load);
    UndoableExactly(Exec(ordered, Extend(deliver)), load);
    BothKinds(s, load, dk, c, items, now, ws, carrier, later);
  }

  /** Two transactions on one buffer. */
  lemma Shared(s: State, first: Command, second: Command)
    requires Ready(s.db, first) && !Refused(s.db, first)
    requires Ready(Exec(s, Fresh(first)).db, second)
    ensures var t := Do(Tx(s.db, EMPTY_UNDO), first);
            var one := Exec(s, Fresh(first));
            && one.db == t.db && one.stack != [] && Enabled(one, Extend(second))
            && var two := Exec(one, Extend(second));
               two.stack != [] && Newest(two).undo == Do(t, second).undo
  {
    hide Ready, Do, Refused;
  }

  lemma MayDeliver(s: State, load: Load, w: int, carrier: int, now: string)
    requires Sound(s, load) && 1 <= carrier <= 10 && now != ""
    ensures Ready(s.db, CDelivery(w, carrier, now)) && AllReady(s.db)
  {
    hide FrameOk, AllReady, Population, Dense, EveryoneOrdered, BalancesRight, YtdRight, RefsBelow, StockRight;
    ReadyToDeliver(s.db);
  }

  lemma UndoableExactly(s: State, load: Load)
    requires Sound(s, load) && s.stack != []
    ensures Enabled(s, UndoNewest) <==> Newest(s).undo.insertedNewOrders !! Newest(s).undo.deletedNewOrders
  {
    hide Consistent, Covers, NewOrdersUndoable, ApplyUndo;
    assert FrameOk(s.db, s.stack, |s.stack| - 1, load);
    UndoRestores(Newest(s).base, Tx(s.db, Newest(s).undo));
  }

  lemma {:induction false} BothKinds(s: State, load: Load, dk: DistId, c: int, items: seq<NewOrderItem>, now: string,
                                     ws: seq<int>, carrier: int, later: string)
    requires Sound(s, load) && Ready(s.db, CNewOrder(dk, c, items, now, ws)) && ItemsValid(s.db, items)
    requires AllReady(Do(Tx(s.db, EMPTY_UNDO), CNewOrder(dk, c, items, now, ws)).db)
    ensures var t := Do(Tx(s.db, EMPTY_UNDO), CNewOrder(dk, c, items, now, ws));
            var u := Delivery(t, dk.w, carrier, later, DISTRICTS).undo;
            u.insertedNewOrders !! u.deletedNewOrders <==> exists j :: j in s.db.newOrders && DistOf(j) == dk
  {
    hide Consistent, FrameOk, NewOrder, Delivery, AllReady, ItemsValid, IsLowest;
    var id := OrderId(dk.w, dk.d, s.db.districts[dk].d_next_o_id);
    var t := NewOrder(Tx(s.db, EMPTY_UNDO), dk, c, items, now, ws);
    OrderRecorded(Tx(s.db, EMPTY_UNDO), dk, c, items, now, ws);
    NextAbove(s.db, load, dk);
    LowestOfNext(s.db.newOrders, id);
    DeliveredExactly(t, dk.w, carrier, later, DISTRICTS);
    DeliveryInsertsNothing(t, dk.w, carrier, later, DISTRICTS);
  }

  /** A single transaction with a fresh buffer, whichever it is, can always be undone, exactly. */
  lemma OneTransactionUndone(db: DB, cmd: Command, load: Load)
    requires Consistent(db, load) && Ready(db, cmd)
    ensures var t := Do(Tx(db, EMPTY_UNDO), cmd);
            && NewOrdersUndoable(t) && |t.undo.insertedHistory| <= |t.db.history|
            && ApplyUndo(t) == db.(nextRef := t.db.nextRef)
  {
    hide Consistent, Covers, Do, Ready, NewOrdersUndoable, ApplyUndo;
    FreshBuffer(db, load);
    DoCovers(db, Tx(db, EMPTY_UNDO), cmd, load);
    OneKind(db, cmd);
    UndoRestores(db, Do(Tx(db, EMPTY_UNDO), cmd));
  }

  /** No buffer both inserted and deleted one NEW-ORDER row. */
  predicate Undoable(stack: seq<Frame>) {
    forall i | 0 <= i < |stack| :: stack[i].undo.insertedNewOrders !! stack[i].undo.deletedNewOrders
  }

  function UndoAll(n: nat): seq<Step> {
    seq(n, _ => UndoNewest)
  }

  /** Undoing all the buffers newest-first restores the database in which the oldest was fresh. */
  lemma {:induction false} UndoAllRestores(s: State, load: Load)
    requires Sound(s, load) && Undoable(s.stack)
    ensures AllEnabled(s, UndoAll(|s.stack|))
    ensures s.stack != [] ==> Run(s, UndoAll(|s.stack|)).db == s.stack[0].base.(nextRef := s.db.nextRef)
    ensures s.stack == [] ==> Run(s, UndoAll(|s.stack|)) == s
    decreases |s.stack|
  {
    hide Sound, Enabled, ApplyUndo;
    var n := |s.stack|;
    if n > 0 {
      UndoableExactly(s, load);
      UndoBack(s, load);
      UndoSound(s, load);
      var s' := Exec(s, UndoNewest);
      UndoAllRestores(s', load);
      assert UndoAll(n)[1..] == UndoAll(n - 1);
    }
  }

  // ---------------------------------------------------------------- undoing a whole run

  /** The database that the oldest buffer leads back to, but for the addresses handed out since. */
  function Bottom(s: State): DB {
    (if s.stack == [] then s.db else s.stack[0].base).(nextRef := 0)
  }

  /** The step is not a commit: no buffer that is still needed goes. */
  predicate Undoes(step: Step) {
    !step.FreeOldest?
  }

  lemma BottomStays(s: State, step: Step, load: Load)
    requires Sound(s, load) && Enabled(s, step) && Undoes(step)
    ensures Bottom(Exec(s, step)) == Bottom(s)
  {
    hide Sound, Ready, Do, ApplyUndo, NewOrdersUndoable, Refused;
    if step == UndoNewest {
      UndoBack(s, load);
    }
  }

  lemma {:induction false} BottomOfRun(s: State, steps: seq<Step>, load: Load)
    requires Sound(s, load) && AllEnabled(s, steps) && forall i | 0 <= i < |steps| :: Undoes(steps[i])
    ensures Bottom(Run(s, steps)) == Bottom(s)
    decreases |steps|
  {
    hide Sound, Bottom, Undoes;
    if steps != [] {
      BottomStays(s, steps[0], load);
      StepSound(s, steps[0], load);
      BottomOfRun(Exec(s, steps[0]), steps[1..], load);
    }
  }

  /** A step on fresh buffers only: every buffer is that of one transaction. */
  predicate OneEach(step: Step) {
    step.Fresh? || step.UndoNewest?
  }

  lemma StaysUndoable(s: State, step: Step)
    requires Undoable(s.stack) && Enabled(s, step) && OneEach(step)
    ensures Undoable(Exec(s, step).stack)
  {
    hide Ready, Do, ApplyUndo, NewOrdersUndoable, Refused;
    if step.Fresh? {
      OneKind(s.db, step.cmd);
    }
  }

  lemma {:induction false} RunUndoable(s: State, steps: seq<Step>)
    requires Undoable(s.stack) && AllEnabled(s, steps) && forall i | 0 <= i < |steps| :: OneEach(steps[i])
    ensures Undoable(Run(s, steps).stack)
    decreases |steps|
  {
    hide Undoable, OneEach;
    if steps != [] {
      StaysUndoable(s, steps[0]);
      RunUndoable(Exec(s, steps[0]), steps[1..]);
    }
  }

  /** Undoing every buffer of a run newest-first gives back the database that the run began with, if
      no buffer both inserted and deleted one NEW-ORDER row. */
  lemma {:induction false} SharedRunUndone(db: DB, steps: seq<Step>, load: Load)
    requires Consistent(db, load) && AllEnabled(State(db, []), steps) && forall i | 0 <= i < |steps| :: Undoes(steps[i])
    requires Undoable(Run(State(db, []), steps).stack)
    ensures var s := Run(State(db, []), steps);
            && AllEnabled(s, UndoAll(|s.stack|))
            && Run(s, UndoAll(|s.stack|)).db.(nextRef := 0) == db.(nextRef := 0)
  {
    hide Consistent, AllEnabled, Undoable, UndoAll;
    var s := Run(State(db, []), steps);
    RunSound(State(db, []), steps, load);
    BottomOfRun(State(db, []), steps, load);
    UndoAllRestores(s, load);
  }

  /** With a fresh buffer for every transaction that is always so. */
  lemma {:induction false} FreshRunUndone(db: DB, steps: seq<Step>, load: Load)
    requires Consistent(db, load) && AllEnabled(State(db, []), steps) && forall i | 0 <= i < |steps| :: OneEach(steps[i])
    ensures var s := Run(State(db, []), steps);
            && AllEnabled(s, UndoAll(|s.stack|))
            && Run(s, UndoAll(|s.stack|)).db.(nextRef := 0) == db.(nextRef := 0)
  {
    RunUndoable(State(db, []), steps);
    hide Consistent, AllEnabled, Undoable, UndoAll, Run;
    SharedRunUndone(db, steps, load);
  }
}
