/** The stock-level and order-status transactions: reading, counting, and what makes both right in a
    consistent database (tpcctables.cc:54-158). */
module StockLevel {
  import opened Rows
  import opened DeliverySpec
  import opened Consistency
  import opened Tables

  function SetOf(s: seq<int>): set<int> {
    set x | x in s
  }

  // ---------------------------------------------------------------- sorting and counting

  predicate Sorted(s: seq<int>) {
    forall i, j | 0 <= i < j < |s| :: s[i] <= s[j]
  }

  function InsertSorted(s: seq<int>, x: int): (r: seq<int>)
    requires Sorted(s)
    ensures Sorted(r) && multiset(r) == multiset(s) + multiset{x}
  {
    if s == [] || x <= s[0] then [x] + s
    else
      var t := InsertSorted(s[1..], x);
      AtLeast(t, s[1..], x, s[0]);
      assert s == [s[0]] + s[1..];
      [s[0]] + t
  }

  lemma AtLeast(t: seq<int>, s: seq<int>, x: int, low: int)
    requires multiset(t) == multiset(s) + multiset{x} && low <= x && forall i | 0 <= i < |s| :: low <= s[i]
    ensures forall i | 0 <= i < |t| :: low <= t[i]
  {
    forall i | 0 <= i < |t| ensures low <= t[i] {
      assert t[i] in multiset(t);
    }
  }

  /** std::sort. */
  function Sort(s: seq<int>): (r: seq<int>)
    ensures Sorted(r) && multiset(r) == multiset(s)
  {
    if s == [] then [] else
      assert s == s[..|s| - 1] + [s[|s| - 1]];
      InsertSorted(Sort(s[..|s| - 1]), s[|s| - 1])
  }

  lemma {:induction false} SortedSet(s: seq<int>)
    ensures SetOf(Sort(s)) == SetOf(s)
  {
    assert forall x :: x in Sort(s) <==> x in multiset(Sort(s));
    assert forall x :: x in s <==> x in multiset(s);
  }

  lemma SetOfAppend(s: seq<int>, x: int)
    ensures SetOf(s + [x]) == SetOf(s) + {x}
  {
  }

  /** In a sorted sequence an element is new exactly when it differs from the one before. */
  lemma NextElement(s: seq<int>, i: nat)
    requires Sorted(s) && i < |s|
    ensures |SetOf(s[..i + 1])| == |SetOf(s[..i])| + if i > 0 && s[i] == s[i - 1] then 0 else 1
  {
    assert s[..i + 1] == s[..i] + [s[i]];
    SetOfAppend(s[..i], s[i]);
    if i > 0 && s[i] == s[i - 1] {
      assert s[i] == s[..i][i - 1];
      assert SetOf(s[..i]) + {s[i]} == SetOf(s[..i]);
    } else {
      assert forall j | 0 <= j < i :: s[j] <= s[i - 1] < s[i];
      assert s[i] !in SetOf(s[..i]);
    }
  }

  /** Counting the changes in a sorted sequence counts its distinct elements (tpcctables.cc:105-113). */
  method CountChanges(s: seq<int>) returns (n: nat)
    requires Sorted(s) && forall i | 0 <= i < |s| :: s[i] != -1
    ensures n == |SetOf(s)|
  {
    n := 0;
    var last := -1;
    var i := 0;
    while i < |s|
      invariant i <= |s| && n == |SetOf(s[..i])| && last == if i == 0 then -1 else s[i - 1]
    {
      NextElement(s, i);
      if s[i] != last {
        last := s[i];
        n := n + 1;
      }
      i := i + 1;
    }
    assert s[..i] == s;
  }

  // ---------------------------------------------------------------- the items to count

  predicate IsLow(db: DB, w: int, threshold: int, l: LineId)
    requires l in db.lines
  {
    var k := StockId(w, db.lines[l].ol_i_id);
    k in db.stock && db.stock[k].s_quantity < threshold
  }

  /** Items on the lines 1 to `n` of an order whose home stock is low. */
  function LowLines(db: DB, id: OrderId, threshold: int, n: int): set<int> {
    set l | l in db.lines && OrderOfLine(l) == id && 1 <= l.n <= n && IsLow(db, id.w, threshold, l) :: db.lines[l].ol_i_id
  }

  /** Items on all lines of the district's orders numbered from `a` to before `b` whose home stock is low. */
  function LowItems(db: DB, dk: DistId, threshold: int, a: int, b: int): set<int> {
    set l | l in db.lines && DistOf(OrderOfLine(l)) == dk && a <= l.o < b && IsLow(db, dk.w, threshold, l) :: db.lines[l].ol_i_id
  }

  lemma NextLine(db: DB, id: OrderId, threshold: int, n: nat)
    requires LineId(id.w, id.d, id.o, n + 1) in db.lines
    ensures var l := LineId(id.w, id.d, id.o, n + 1);
            LowLines(db, id, threshold, n + 1) ==
            LowLines(db, id, threshold, n) + if IsLow(db, id.w, threshold, l) then {db.lines[l].ol_i_id} else {}
  {
    var l, a, b := LineId(id.w, id.d, id.o, n + 1), LowLines(db, id, threshold, n + 1), LowLines(db, id, threshold, n);
    forall x | x in a ensures x in b || (IsLow(db, id.w, threshold, l) && x == db.lines[l].ol_i_id) {
      var m :| m in db.lines && OrderOfLine(m) == id && 1 <= m.n <= n + 1 && IsLow(db, id.w, threshold, m) && db.lines[m].ol_i_id == x;
      if m.n == n + 1 { assert m == l; }
    }
  }

  /** The lines of an order are numbered without a gap: past the first missing one there is none. */
  lemma NoMoreLines(db: DB, id: OrderId, threshold: int, n: nat)
    requires IndexAgreement(db) && LinesSound(db) && LineId(id.w, id.d, id.o, n + 1) !in db.lines
    ensures forall m: nat | m >= n :: LowLines(db, id, threshold, m) == LowLines(db, id, threshold, n)
  {
    if id in db.orders {
      assert OrderAt(db, id).o_ol_cnt <= n;
    }
    assert forall l | l in db.lines && OrderOfLine(l) == id :: l.n <= n;
  }

  lemma NextOrder(db: DB, dk: DistId, threshold: int, a: int, o: int)
    requires a <= o && IndexAgreement(db) && OrdersSound(db) && LinesSound(db)
    ensures LowItems(db, dk, threshold, a, o + 1) ==
            LowItems(db, dk, threshold, a, o) + LowLines(db, OrderId(dk.w, dk.d, o), threshold, MAX_OL_CNT)
  {
    var id := OrderId(dk.w, dk.d, o);
    var x, y, z := LowItems(db, dk, threshold, a, o + 1), LowItems(db, dk, threshold, a, o), LowLines(db, id, threshold, MAX_OL_CNT);
    forall i | i in x ensures i in y || i in z {
      var l :| l in db.lines && DistOf(OrderOfLine(l)) == dk && a <= l.o < o + 1 && IsLow(db, dk.w, threshold, l) && db.lines[l].ol_i_id == i;
      if l.o == o {
        assert OrderOfLine(l) == id && 1 <= l.n <= OrderAt(db, id).o_ol_cnt <= MAX_OL_CNT;
      }
    }
    forall i | i in z ensures i in x {
      var l :| l in db.lines && OrderOfLine(l) == id && 1 <= l.n <= MAX_OL_CNT && IsLow(db, id.w, threshold, l) && db.lines[l].ol_i_id == i;
    }
  }

  /** The home stock row that the code dereferences for a line (tpcctables.cc:97). */
  ghost predicate LineStocked(db: DB, l: LineId)
    requires l in db.lines
  {
    1 <= db.lines[l].ol_i_id && StockId(l.w, db.lines[l].ol_i_id) in db.stock
  }

  /** All lines of the district's orders numbered from `a` to before `b` have theirs. */
  ghost predicate LinesStocked(db: DB, dk: DistId, a: int, b: int) {
    forall l | l in db.lines && DistOf(OrderOfLine(l)) == dk && a <= l.o < b :: LineStocked(db, l)
  }

  /** What stock level reads is there: the stock rows for the lines of the last 20 orders. */
  ghost predicate LastOrdersStocked(db: DB, dk: DistId)
    requires dk in db.districts
  {
    var next := db.districts[dk].d_next_o_id;
    LinesStocked(db, dk, next - STOCK_LEVEL_ORDERS, next)
  }

  /** The marker -1 is never an item. */
  lemma ItemsAreIds(db: DB, dk: DistId, threshold: int, a: int, b: int)
    requires LinesStocked(db, dk, a, b)
    ensures -1 !in LowItems(db, dk, threshold, a, b)
  {
  }

  lemma NoOrdersYet(db: DB, dk: DistId, threshold: int, a: int)
    ensures LowItems(db, dk, threshold, a, a) == SetOf([])
  {
  }

  lemma NotIn(s: seq<int>, x: int)
    requires x !in SetOf(s)
    ensures forall i | 0 <= i < |s| :: s[i] != x
  {
    forall i | 0 <= i < |s| ensures s[i] != x {
      assert s[i] in SetOf(s);
    }
  }

  // ---------------------------------------------------------------- stock level

  /** The loop over line numbers, up to the first line that is missing (tpcctables.cc:83-101). */
  method CollectLines(tables: TPCCTables, id: OrderId, threshold: int, ids: seq<int>) returns (r: seq<int>)
    requires IndexAgreement(tables.View()) && LinesSound(tables.View())
    requires forall l | l in tables.orderLines && OrderOfLine(l) == id :: LineStocked(tables.View(), l)
    ensures SetOf(r) == SetOf(ids) + LowLines(tables.View(), id, threshold, MAX_OL_CNT)
  {
    ghost var db := tables.View();
    r := ids;
    var n := 0;
    while n < MAX_OL_CNT
      invariant 0 <= n <= MAX_OL_CNT && SetOf(r) == SetOf(ids) + LowLines(db, id, threshold, n)
    {
      var l := LineId(id.w, id.d, id.o, n + 1);
      if l !in tables.orderLines {
        NoMoreLines(db, id, threshold, n);
        return;
      }
      NextLine(db, id, threshold, n);
      var item := tables.orderLines[l].ol_i_id;
      if tables.stock[StockId(id.w, item)].s_quantity < threshold {
        assert SetOf(r + [item]) == SetOf(r) + {item};
        r := r + [item];
      }
      n := n + 1;
    }
  }

  /** Section 2.8 of TPC-C: how many different items on the last 20 orders are low. */
  method StockLevel(tables: TPCCTables, dk: DistId, threshold: int) returns (count: nat)
    requires dk in tables.districts && tables.districts[dk].d_next_o_id > STOCK_LEVEL_ORDERS
    requires IndexAgreement(tables.View()) && OrdersSound(tables.View()) && LinesSound(tables.View())
    requires LastOrdersStocked(tables.View(), dk)
    ensures var next := tables.districts[dk].d_next_o_id;
            count == |LowItems(tables.View(), dk, threshold, next - STOCK_LEVEL_ORDERS, next)|
  {
    var next := tables.districts[dk].d_next_o_id;
    ItemsAreIds(tables.View(), dk, threshold, next - STOCK_LEVEL_ORDERS, next);
    var ids := CollectOrders(tables, dk, threshold, next - STOCK_LEVEL_ORDERS, next);
    hide *;
    SortedSet(ids);
    var sorted := Sort(ids);
    NotIn(sorted, -1);
    count := CountChanges(sorted);
  }

  /** The loop over order numbers (tpcctables.cc:80-102). */
  method CollectOrders(tables: TPCCTables, dk: DistId, threshold: int, first: int, next: int) returns (ids: seq<int>)
    requires first <= next && IndexAgreement(tables.View()) && OrdersSound(tables.View()) && LinesSound(tables.View())
    requires LinesStocked(tables.View(), dk, first, next)
    ensures SetOf(ids) == LowItems(tables.View(), dk, threshold, first, next)
  {
    hide LowItems, LowLines, IndexAgreement, OrdersSound, LinesSound, SetOf;
    ids := [];
    NoOrdersYet(tables.View(), dk, threshold, first);
    var o := first;
    while o < next
      invariant first <= o <= next && SetOf(ids) == LowItems(tables.View(), dk, threshold, first, o)
    {
      ids := CollectLines(tables, OrderId(dk.w, dk.d, o), threshold, ids);
      NextOrder(tables.View(), dk, threshold, first, o);
      o := o + 1;
    }
  }

  // ---------------------------------------------------------------- order status

  /** All the lines of an order, in order. */
  ghost predicate AreLinesOf(db: DB, r: Ref, lines: seq<OrderLine>)
    requires r in db.orderRows
  {
    var id := OrderIdOf(db.orderRows[r]);
    && |lines| == db.orderRows[r].o_ol_cnt
    && (forall i | 0 <= i < |lines| ::
          LineId(id.w, id.d, id.o, i + 1) in db.lines && lines[i] == db.lines[LineId(id.w, id.d, id.o, i + 1)])
    && forall l | l in db.lines && OrderOfLine(l) == id :: 1 <= l.n <= |lines|
  }

  /** The lines that order status reports are all the lines of the order, in order (tpcctables.cc:143-157). */
  method OrderLinesOf(tables: TPCCTables, r: Ref) returns (lines: seq<OrderLine>)
    requires IndexAgreement(tables.View()) && LinesSound(tables.View()) && OrdersSound(tables.View()) && r in tables.orderRows
    ensures AreLinesOf(tables.View(), r, lines)
  {
    var o := tables.orderRows[r];
    var id := OrderIdOf(o);
    assert Indexed(tables.View(), r) && OrderAt(tables.View(), id) == o;
    lines := [];
    for n := 1 to o.o_ol_cnt + 1
      invariant |lines| == n - 1
      invariant forall i | 0 <= i < n - 1 :: LineId(id.w, id.d, id.o, i + 1) in tables.orderLines
                                             && lines[i] == tables.orderLines[LineId(id.w, id.d, id.o, i + 1)]
    {
      assert LineId(id.w, id.d, id.o, n) in tables.orderLines;
      lines := lines + [tables.orderLines[LineId(id.w, id.d, id.o, n)]];
    }
  }
}
