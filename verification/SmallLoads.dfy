/** One load, row by row: one item, one warehouse and one district with any number of customers. Every row
    is one that the generate functions can make. */
module SmallLoads {
  import opened Rows
  import opened UndoSpec
  import opened Consistency
  import opened Preservation
  import opened Generated
  import opened Generator
  import CustomerNames
  import Random

  const TODAY := "20260101000000"
  const HOME := DistId(1, 1)

  function Text(n: nat): (s: string)
    ensures IsName(s, n, n)
  {
    seq(n, _ => 'a')
  }

  /** `c` customers, the newest `k` of their orders new. */
  function SmallSettings(c: nat, k: nat): Settings {
    Settings(TODAY, 1, 1, 1, c, k)
  }

  function SmallStart(): DB {
    EMPTY_DB.(items := [Item(1, 1_00)], stock := map[StockId(1, 1) := Stock(1, 1, 50, 0, 0, 0)],
              warehouses := map[1 := Warehouse(1, 0, WAREHOUSE_YTD, Text(6))])
  }

  function SmallLoadOf(c: nat): Load {
    LoadOf(map[StockId(1, 1) := 50], 1, c)
  }

  function SmallDistricts(c: nat): DB {
    OpenDistrict(SmallStart(), District(1, 1, 0, DISTRICT_YTD, c + 1, Text(6)))
  }

  lemma SmallStarted(c: nat)
    ensures var db, load := SmallStart(), SmallLoadOf(c);
            Complete(db, load) && OthersAddUp(db, 1, load) && FirstDistricts(db.districts, 1, 0) && Populated(db, c, 1)
  {
    hide Consistent, Complete, OthersAddUp, FirstDistricts;
    var db := EMPTY_DB.(items := [Item(1, 1_00)]);
    var s, w := Stock(1, 1, 50, 0, 0, 0), Warehouse(1, 0, WAREHOUSE_YTD, Text(6));
    EmptyConsistent(db.items, LoadOf(map[], 1, c));
    StockAdded(db, s, LoadOf(map[], 1, c));
    WarehouseOpened(db.(stock := map[StockId(1, 1) := s]), w, SmallLoadOf(c));
  }

  lemma SmallBegun(c: nat, first: int)
    ensures var db, load := SmallDistricts(c), SmallLoadOf(c);
            && HOME in db.districts && db.newOrders == {} && Core(UpTo(db, HOME, 0), load)
            && HasCustomers(db, HOME, 0) && Elsewhere(db, HOME, load) && RowsMade(db, TODAY, c, first)
  {
    hide Core, Elsewhere, HasCustomers;
    SmallStarted(c);
    OpenCore(SmallStart(), District(1, 1, 0, DISTRICT_YTD, c + 1, Text(6)), SmallLoadOf(c));
  }

  // ---------------------------------------------------------------- customers

  /** A tenth has bad credit; after the first 1000 names, the first name is drawn again and again. */
  function SmallCustomer(n: nat, c: nat): Customer
    requires n >= 1
  {
    Customer(n, 1, 1, 50_000_00, 0, INITIAL_BALANCE, INITIAL_YTD_PAYMENT, 1, 0, Text(6),
             CustomerNames.LastName(if n <= 1000 then n - 1 else 0), if n <= c / 10 then BAD_CREDIT else GOOD_CREDIT, Text(300))
  }

  lemma SmallCustomerMade(n: nat, c: nat)
    requires 1 <= n <= c
    ensures CustomerMade(CustId(1, 1, n), SmallCustomer(n, c), c)
  {
    hide CustomerNames.LastName, CustomerNames.ReadsAs;
    CustomerNames.NameReads(if n <= 1000 then n - 1 else 0, SmallCustomer(n, c).c_last);
  }

  /** The same tables with customers and payments of the district. */
  ghost predicate OnlyCustomers(a: DB, b: DB) {
    && b == a.(customers := b.customers, history := b.history, historyRows := b.historyRows, nextRef := b.nextRef)
    && OtherCustomers(a.customers, b.customers, HOME)
  }

  lemma {:induction false} SmallCustomers(db: DB, n: nat, c: nat, first: int, load: Load) returns (r: DB)
    requires n <= c && HOME in db.districts && Core(UpTo(db, HOME, 0), load) && RowsMade(db, TODAY, c, first)
    requires HasCustomers(db, HOME, 0) && Elsewhere(db, HOME, load)
    ensures OnlyCustomers(db, r) && RowsMade(r, TODAY, c, first)
    ensures Core(UpTo(r, HOME, 0), load) && HasCustomers(r, HOME, n) && Elsewhere(r, HOME, load)
    ensures forall i: nat | 1 <= i <= n :: CustId(1, 1, i) in r.customers && r.customers[CustId(1, 1, i)] == SmallCustomer(i, c)
  {
    hide Core, HasCustomers, Elsewhere, RowsMade, CustomerMade;
    r := db;
    if n > 0 {
      var before := SmallCustomers(db, n - 1, c, first, load);
      var row, h := SmallCustomer(n, c), History(n, 1, 1, 1, 1, INITIAL_AMOUNT, TODAY, Text(12));
      SmallCustomerMade(n, c);
      CustomerCore(before, HOME, n - 1, row, h, load);
      r := AddCustomer(before, row, h);
      CustomerRow(before, row, h, r, TODAY, c, first);
    }
  }

  function FirstOnes(n: nat): (s: set<int>)
    ensures forall i :: i in s <==> 1 <= i <= n
    ensures |s| == n
  {
    if n == 0 then {} else FirstOnes(n - 1) + {n}
  }

  lemma SmallCredit(customers: map<CustId, Customer>, c: nat)
    requires forall i: nat | 1 <= i <= c :: CustId(1, 1, i) in customers && customers[CustId(1, 1, i)] == SmallCustomer(i, c)
    ensures CreditDealt(customers, HOME, c)
  {
    var selected := FirstOnes(c / 10);
    forall i | 1 <= i <= c ensures BadCredit(customers, CustId(1, 1, i)) <==> i in selected {
      assert customers[CustId(1, 1, i)] == SmallCustomer(i, c);
    }
    assert Selection(selected, c / 10, c) && CreditIs(customers, HOME, c, selected);
  }

  // ---------------------------------------------------------------- orders

  function SmallOrder(n: nat, first: int): Order {
    Order(n, n, 1, 1, if n >= first then NULL_CARRIER_ID else 1, 5, true, TODAY)
  }

  function FiveIds(n: nat): (ids: set<LineId>)
    ensures forall l :: l in ids <==> OrderOfLine(l) == OrderId(1, 1, n) && 1 <= l.n <= 5
  {
    {LineId(1, 1, n, 1), LineId(1, 1, n, 2), LineId(1, 1, n, 3), LineId(1, 1, n, 4), LineId(1, 1, n, 5)}
  }

  function SmallLines(n: nat, first: int): map<LineId, OrderLine> {
    map l | l in FiveIds(n) ::
      OrderLine(n, 1, 1, l.n, 1, 1, 5, if n >= first then 1 else 0, if n >= first then "" else TODAY)
  }

  lemma SmallOrderMade(n: nat, first: int)
    requires n >= 1
    ensures MadeOrder(HOME, n, n, SmallOrder(n, first), SmallLines(n, first), first, TODAY)
  {
  }

  lemma {:induction false} SmallOrders(db: DB, n: nat, c: nat, first: int, load: Load) returns (r: DB)
    requires n <= c && Filling(db, HOME, 0, first, Random.Consecutive(1, c), c, load) && RowsMade(db, TODAY, c, first)
    ensures Filling(r, HOME, n, first, Random.Consecutive(1, c), c, load) && OnlyOrders(db, r, HOME) && RowsMade(r, TODAY, c, first)
  {
    hide Filling, OnlyOrders, MadeOrder, SmallLines, SmallOrder, Random.IsPermutation, LoadOrder, RowsMade;
    r := db;
    if n == 0 {
      NoOrdersAtFirst(db, HOME);
    } else {
      var before := SmallOrders(db, n - 1, c, first, load);
      var o, lines := SmallOrder(n, first), SmallLines(n, first);
      SmallOrderMade(n, first);
      InTurn(c);
      OrderDone(db, before, HOME, n - 1, first, Random.Consecutive(1, c), c, o, lines, TODAY, load);
      MadeRows(before, HOME, n, n, o, lines, first, TODAY, c);
      r := LoadOrder(before, o, lines);
    }
  }

  lemma InTurn(c: nat)
    ensures Random.IsPermutation(Random.Consecutive(1, c), 1, c)
  {
    forall x | 1 <= x <= c ensures x in Random.Consecutive(1, c) {
      assert Random.Consecutive(1, c)[x - 1] == x;
    }
  }

  // ---------------------------------------------------------------- all of it

  lemma SmallFilling(a: DB, b: DB, c: nat, first: int, load: Load)
    requires HOME in a.districts && OnlyCustomers(a, b) && a.newOrders == {} && first >= 1
    requires Core(UpTo(b, HOME, 0), load) && HasCustomers(b, HOME, c) && Elsewhere(b, HOME, load)
    ensures Filling(b, HOME, 0, first, Random.Consecutive(1, c), c, load)
  {
    hide Core, Elsewhere, HasCustomers;
  }

  lemma SmallDone(b: DB, db: DB, c: nat, first: int, load: Load)
    requires OnlyCustomers(SmallDistricts(c), b) && OnlyOrders(b, db, HOME) && load == SmallLoadOf(c)
    requires Filling(db, HOME, c, first, Random.Consecutive(1, c), c, load) && CreditDealt(db.customers, HOME, c)
    ensures Consistent(db, load) && Populated(db, c, first)
  {
    hide Filling, Complete, Consistent, OthersAddUp, FirstDistricts, NewOrdersAre, Random.IsPermutation, Elsewhere, Core, CreditDealt;
    var start := SmallStart();
    SmallStarted(c);
    InTurn(c);
    DistrictComplete(db, HOME, first, Random.Consecutive(1, c), c, load);
    NextDistrict(start, db, 1, 1, load);
    WarehouseComplete(db, 1, 1, load);
    DistrictFills(start, db, HOME, c, first);
  }

  lemma SmallLoaded(b: DB, db: DB, c: nat, k: nat)
    requires OnlyCustomers(SmallDistricts(c), b) && OnlyOrders(b, db, HOME)
    requires var z := SmallSettings(c, k);
             Consistent(db, SmallLoadOf(c)) && Populated(db, c, z.FirstNew()) && RowsMade(db, TODAY, c, z.FirstNew())
    ensures Loaded(db, SmallLoadOf(c), SmallSettings(c, k))
  {
    hide Consistent, Populated, RowsMade;
  }

  /** The load of these settings that draws all this. */
  lemma SmallLoad(c: nat, k: nat) returns (db: DB, load: Load)
    requires 1 <= k <= c
    ensures Loaded(db, load, SmallSettings(c, k))
    ensures forall i: nat | 1 <= i <= c :: CustId(1, 1, i) in db.customers && db.customers[CustId(1, 1, i)] == SmallCustomer(i, c)
  {
    hide *;
    load := SmallLoadOf(c);
    var first := SmallFirst(c, k);
    SmallBegun(c, first);
    var peopled := SmallCustomers(SmallDistricts(c), c, c, first, load);
    SmallFilling(SmallDistricts(c), peopled, c, first, load);
    db := SmallOrders(peopled, c, c, first, load);
    SameCustomers(peopled, db);
    SmallCredit(db.customers, c);
    SmallDone(peopled, db, c, first, load);
    SmallLoaded(peopled, db, c, k);
  }

  lemma SmallFirst(c: nat, k: nat) returns (first: int)
    requires 1 <= k <= c
    ensures first == SmallSettings(c, k).FirstNew() && first >= 1
  {
    first := c - k + 1;
  }

  lemma SameCustomers(a: DB, b: DB)
    requires OnlyOrders(a, b, HOME)
    ensures a.customers == b.customers
  {
  }
}
