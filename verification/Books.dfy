/** Whole runs against the commands: undoing takes the commands of the newest buffer out of the book, committing keeps
    those of the oldest, and the database is always what the commands in the book make of the one at the start. */
module Books {
  import opened Rows
  import opened Consistency
  import opened Machine
  import opened UndoSpec
  import opened Generated
  import opened Generator
  import opened Ledger
  import opened StockLaw
  import opened Counters

  /** The commands whose buffers are gone, and those under each buffer that is still held. */
  datatype Book = Book(kept: seq<Command>, held: seq<seq<Command>>)

  const EMPTY_BOOK := Book([], [])

  /** The book after a step from database `db`. */
  function Booked(db: DB, b: Book, step: Step): Book {
    var n := |b.held| - 1;
    match step
    case Fresh(cmd) => if Refused(db, cmd) then b else b.(held := b.held + [[cmd]])
    case Extend(cmd) => if Refused(db, cmd) || n < 0 then b else b.(held := b.held[n := b.held[n] + [cmd]])
    case UndoNewest => if n < 0 then b else b.(held := b.held[..n])
    case FreeOldest => if n < 0 then b else Book(b.kept + b.held[0], b.held[1..])
  }

  /** The commands in force before buffer `i` was fresh. */
  function Before(b: Book, i: nat): seq<Command>
    requires i <= |b.held|
  {
    if i == 0 then b.kept else Before(b, i - 1) + b.held[i - 1]
  }

  function InForce(b: Book): seq<Command> {
    Before(b, |b.held|)
  }

  /** The book at the end of a run. */
  ghost function Keeping(s: State, b: Book, steps: seq<Step>): Book
    requires AllEnabled(s, steps)
    decreases |steps|
  {
    if steps == [] then b else Keeping(Exec(s, steps[0]), Booked(s.db, b, steps[0]), steps[1..])
  }

  ghost predicate BaseTold(origin: DB, stack: seq<Frame>, b: Book, i: nat)
    requires i < |stack| && i <= |b.held|
  {
    Told(origin, Before(b, i), stack[i].base)
  }

  /** The book accounts for the present database, and for every one that a buffer leads back to. */
  ghost predicate Balanced(origin: DB, s: State, b: Book) {
    && |b.held| == |s.stack| && Told(origin, InForce(b), s.db)
    && forall i | 0 <= i < |s.stack| :: BaseTold(origin, s.stack, b, i)
  }

  lemma {:induction false} SameBefore(a: Book, b: Book, i: nat)
    requires i <= |a.held| && i <= |b.held| && a.kept == b.kept && a.held[..i] == b.held[..i]
    ensures Before(a, i) == Before(b, i)
  {
    if i > 0 {
      assert a.held[..i - 1] == a.held[..i][..i - 1] && b.held[..i - 1] == b.held[..i][..i - 1];
      assert a.held[i - 1] == a.held[..i][i - 1];
      SameBefore(a, b, i - 1);
    }
  }

  lemma {:induction false} KeptBefore(b: Book, i: nat)
    requires 1 <= i <= |b.held|
    ensures Before(Book(b.kept + b.held[0], b.held[1..]), i - 1) == Before(b, i)
  {
    if i > 1 {
      KeptBefore(b, i - 1);
    } else {
      assert Before(b, 0) == b.kept;
    }
  }

  // ---------------------------------------------------------------- step by step

  lemma FreshBooked(origin: DB, s: State, b: Book, cmd: Command, load: Load)
    requires Balanced(origin, s, b) && Sound(s, load) && Ready(s.db, cmd) && !Refused(s.db, cmd)
    ensures Balanced(origin, Exec(s, Fresh(cmd)), Booked(s.db, b, Fresh(cmd)))
  {
    hide Told, Consistent, FrameOk, Do, Ready, Refused, NewOrdersUndoable;
    var s', b' := Exec(s, Fresh(cmd)), Booked(s.db, b, Fresh(cmd));
    DoTold(origin, InForce(b), Tx(s.db, EMPTY_UNDO), cmd, load);
    forall i | 0 <= i <= |s.stack| ensures Before(b', i) == Before(b, i) {
      SameBefore(b', b, i);
    }
    forall i | 0 <= i < |s'.stack| ensures BaseTold(origin, s'.stack, b', i) {
      if i < |s.stack| { assert BaseTold(origin, s.stack, b, i); }
    }
  }

  lemma ExtendBooked(origin: DB, s: State, b: Book, cmd: Command, load: Load)
    requires Balanced(origin, s, b) && Sound(s, load) && s.stack != [] && Ready(s.db, cmd) && !Refused(s.db, cmd)
    ensures Balanced(origin, Exec(s, Extend(cmd)), Booked(s.db, b, Extend(cmd)))
  {
    hide Told, Consistent, FrameOk, Do, Ready, Refused, NewOrdersUndoable;
    var s', b', n := Exec(s, Extend(cmd)), Booked(s.db, b, Extend(cmd)), |s.stack| - 1;
    DoTold(origin, InForce(b), Tx(s.db, Newest(s).undo), cmd, load);
    forall i | 0 <= i <= n ensures Before(b', i) == Before(b, i) {
      SameBefore(b', b, i);
    }
    assert b'.held[n] == b.held[n] + [cmd] && InForce(b') == Before(b, n) + (b.held[n] + [cmd]);
    assert InForce(b') == InForce(b) + [cmd];
    forall i | 0 <= i < |s'.stack| ensures BaseTold(origin, s'.stack, b', i) {
      assert BaseTold(origin, s.stack, b, i);
    }
  }

  /** A refused command leaves database, buffers and book as they were. */
  lemma RefusedBooked(s: State, b: Book, step: Step)
    requires Enabled(s, step) && (step.Fresh? || step.Extend?) && Refused(s.db, step.cmd)
    ensures Exec(s, step) == s && Booked(s.db, b, step) == b
  {
    hide Refused, Do, Ready, NewOrdersUndoable;
    if step.Extend? {
      RefusedKeeps(Tx(s.db, Newest(s).undo), step.cmd);
      assert s.stack[|s.stack| - 1 := Newest(s)] == s.stack;
    }
  }

  lemma UndoBooked(origin: DB, s: State, b: Book, load: Load)
    requires Balanced(origin, s, b) && Sound(s, load) && Enabled(s, UndoNewest)
    ensures Balanced(origin, Exec(s, UndoNewest), Booked(s.db, b, UndoNewest))
  {
    hide Told, Sound, NewOrdersUndoable, ApplyUndo;
    var s', b', n := Exec(s, UndoNewest), Booked(s.db, b, UndoNewest), |s.stack| - 1;
    UndoBack(s, load);
    assert BaseTold(origin, s.stack, b, n);
    ToldLater(origin, Before(b, n), Newest(s).base, s.db.nextRef);
    forall i | 0 <= i <= n ensures Before(b', i) == Before(b, i) {
      SameBefore(b', b, i);
    }
    forall i | 0 <= i < |s'.stack| ensures BaseTold(origin, s'.stack, b', i) {
      assert BaseTold(origin, s.stack, b, i);
    }
  }

  lemma FreeBooked(origin: DB, s: State, b: Book)
    requires Balanced(origin, s, b) && Enabled(s, FreeOldest)
    ensures Balanced(origin, Exec(s, FreeOldest), Booked(s.db, b, FreeOldest))
  {
    hide Told;
    var s', b' := Exec(s, FreeOldest), Booked(s.db, b, FreeOldest);
    KeptBefore(b, |b.held|);
    forall i | 0 <= i < |s'.stack| ensures BaseTold(origin, s'.stack, b', i) {
      KeptBefore(b, i + 1);
      assert BaseTold(origin, s.stack, b, i + 1);
    }
  }

  lemma StepBooked(origin: DB, s: State, b: Book, step: Step, load: Load)
    requires Balanced(origin, s, b) && Sound(s, load) && Enabled(s, step)
    ensures Balanced(origin, Exec(s, step), Booked(s.db, b, step))
  {
    hide Balanced, Sound, Booked, Exec, Refused;
    match step
    case Fresh(cmd) => if Refused(s.db, cmd) { RefusedBooked(s, b, step); } else { FreshBooked(origin, s, b, cmd, load); }
    case Extend(cmd) => if Refused(s.db, cmd) { RefusedBooked(s, b, step); } else { ExtendBooked(origin, s, b, cmd, load); }
    case UndoNewest => UndoBooked(origin, s, b, load);
    case FreeOldest => FreeBooked(origin, s, b);
  }

  lemma {:induction false} RunBooked(origin: DB, s: State, b: Book, steps: seq<Step>, load: Load)
    requires Balanced(origin, s, b) && Sound(s, load) && AllEnabled(s, steps)
    ensures Balanced(origin, Run(s, steps), Keeping(s, b, steps))
    decreases |steps|
  {
    hide Balanced, Sound, Booked;
    if steps != [] {
      StepBooked(origin, s, b, steps[0], load);
      StepSound(s, steps[0], load);
      RunBooked(origin, Exec(s, steps[0]), Booked(s.db, b, steps[0]), steps[1..], load);
    }
  }

  /** Every state of every run, with undoing and committing, is what the commands in force tell. */
  lemma {:induction false} RunTold(origin: DB, steps: seq<Step>, load: Load)
    requires Consistent(origin, load) && AllEnabled(State(origin, []), steps)
    ensures Told(origin, InForce(Keeping(State(origin, []), EMPTY_BOOK, steps)), Run(State(origin, []), steps).db)
  {
    hide Told, Consistent, Run, Keeping, AllEnabled;
    NothingTold(origin);
    RunBooked(origin, State(origin, []), EMPTY_BOOK, steps, load);
  }

  // ---------------------------------------------------------------- runs without undoing

  /** The commands of a run that are not refused, in order. */
  function Accepted(db: DB, steps: seq<Step>): seq<Command> {
    if steps == [] then []
    else (if (steps[0].Fresh? || steps[0].Extend?) && !Refused(db, steps[0].cmd) then [steps[0].cmd] else []) + Accepted(db, steps[1..])
  }

  lemma BookGrows(origin: DB, s: State, b: Book, step: Step)
    requires |b.held| == |s.stack| && s.db.items == origin.items && Enabled(s, step) && step != UndoNewest
    ensures InForce(Booked(s.db, b, step)) == InForce(b) + Accepted(origin, [step])
  {
    hide Ready, NewOrdersUndoable;
    var b', n := Booked(s.db, b, step), |b.held|;
    assert [step][1..] == [] && Accepted(origin, []) == [];
    if step == FreeOldest {
      KeptBefore(b, n);
    } else if !Refused(s.db, step.cmd) {
      SameBefore(b', b, if step.Fresh? then n else n - 1);
    }
  }

  lemma {:induction false} AllInForce(origin: DB, s: State, b: Book, steps: seq<Step>, load: Load)
    requires Balanced(origin, s, b) && Sound(s, load) && AllEnabled(s, steps) && UndoNewest !in steps
    ensures InForce(Keeping(s, b, steps)) == InForce(b) + Accepted(origin, steps)
    decreases |steps|
  {
    hide Sound, Booked, InForce, CustomersTold, HistoryTold, OrdersTold, OrdersKept, Exec, Enabled, Refused;
    if steps != [] {
      var s', b' := Exec(s, steps[0]), Booked(s.db, b, steps[0]);
      StepBooked(origin, s, b, steps[0], load);
      StepSound(s, steps[0], load);
      AllInForce(origin, s', b', steps[1..], load);
      BookGrows(origin, s, b, steps[0]);
      assert Accepted(origin, steps) == Accepted(origin, [steps[0]]) + Accepted(origin, steps[1..]);
    }
  }

  /** Without undoing, all commands that were not refused are in force. */
  lemma {:induction false} AcceptedTold(origin: DB, steps: seq<Step>, load: Load)
    requires Consistent(origin, load) && AllEnabled(State(origin, []), steps) && UndoNewest !in steps
    ensures Told(origin, Accepted(origin, steps), Run(State(origin, []), steps).db)
  {
    hide Told, Consistent, Run, Keeping, AllEnabled, Accepted;
    NothingTold(origin);
    RunTold(origin, steps, load);
    AllInForce(origin, State(origin, []), EMPTY_BOOK, steps, load);
    assert [] + Accepted(origin, steps) == Accepted(origin, steps);
  }

  /** What a customer pays comes off the balance, apart from what is delivered. */
  lemma BalanceTold(origin: DB, cmds: seq<Command>, db: DB, k: CustId, load: Load)
    requires Told(origin, cmds, db) && Consistent(origin, load) && Consistent(db, load) && k in origin.customers
    ensures k in db.customers
    ensures db.customers[k].c_balance - DeliveredTo(db, k) ==
            origin.customers[k].c_balance - DeliveredTo(origin, k) - Ledger.PaidBy(cmds, k)
  {
    hide SumsTold, HistoryTold, OrdersTold, OrdersKept, Population, IndexAgreement, Dense, Queue, OrdersSound, LinesSound,
      EveryoneOrdered, YtdRight, RefsBelow, StockRight, DeliveredTo;
    assert BalanceRight(origin, k) && BalanceRight(db, k);
    assert CustomerTold(origin.customers[k], db.customers[k], Ledger.PaidBy(cmds, k), RecordsBy(cmds, k));
  }

  // ---------------------------------------------------------------- counters

  ghost predicate AllCounted(s: State, c: int, first: int) {
    Counted(s.db, c, first) && forall i | 0 <= i < |s.stack| :: Counted(s.stack[i].base, c, first)
  }

  lemma StepCounted(s: State, step: Step, load: Load, c: int, first: int)
    requires AllCounted(s, c, first) && Sound(s, load) && Enabled(s, step)
    ensures AllCounted(Exec(s, step), c, first)
  {
    hide Counted, Consistent, FrameOk, Do, Ready, Refused, NewOrdersUndoable, ApplyUndo;
    match step
    case Fresh(cmd) => DoCounted(Tx(s.db, EMPTY_UNDO), cmd, load, c, first);
    case Extend(cmd) => DoCounted(Tx(s.db, Newest(s).undo), cmd, load, c, first);
    case UndoNewest =>
      UndoBack(s, load);
      CountedLater(Newest(s).base, c, first, s.db.nextRef);
    case FreeOldest =>
  }

  lemma {:induction false} RunAllCounted(s: State, steps: seq<Step>, load: Load, c: int, first: int)
    requires AllCounted(s, c, first) && Sound(s, load) && AllEnabled(s, steps)
    ensures AllCounted(Run(s, steps), c, first)
    decreases |steps|
  {
    hide AllCounted, Sound;
    if steps != [] {
      StepCounted(s, steps[0], load, c, first);
      StepSound(s, steps[0], load);
      RunAllCounted(Exec(s, steps[0]), steps[1..], load, c, first);
    }
  }

  /** In every state of every run after the load, s_ytd is the sum of the quantities of the lines past the load's
      orders that the row supplies, s_order_cnt is their number and s_remote_cnt the number of those of other
      warehouses; and c_delivery_cnt is the number of the customer's orders with a carrier, from the load's first
      new order on. */
  lemma {:induction false} RunCounted(db: DB, load: Load, z: Settings, steps: seq<Step>)
    requires Loaded(db, load, z) && AllEnabled(State(db, []), steps)
    ensures var d := Run(State(db, []), steps).db;
            && (forall k | k in d.stock :: RowCounted(d.stock[k], d.lines, k, z.customers))
            && forall k | k in d.customers ::
                 d.customers[k].c_delivery_cnt == |CarriedFor(d.orders, d.orderRows, k, z.FirstNew())|
  {
    hide Consistent, Populated, Generated.RowsMade, Run, AllEnabled, RowCounted, CarriedFor;
    LoadedCounted(db, load, z);
    RunAllCounted(State(db, []), steps, load, z.customers, z.FirstNew());
  }
}
