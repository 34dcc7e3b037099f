/** The last names of the load (tpccgenerator.cc:152-158), which payment and order status ask for by a
    drawn name (tpccclient.cc:46-57, 99-103), and which the index by name takes to be different together with
    the first names (tpcctables.cc:710). */
module LoadedNames {
  import opened Rows
  import opened UndoSpec
  import opened Consistency
  import opened Preservation
  import opened Generated
  import opened Generator
  import opened SmallLoads
  import opened Machine
  import opened Unchanged
  import opened NameIndex
  import opened CustomerNames

  /** The customers 1 to 1000 of every district have the names that read as 0 to 999, in turn. */
  lemma NameOfLoad(db: DB, load: Load, z: Settings, k: CustId)
    requires Loaded(db, load, z) && k in db.customers && k.c <= 1000
    ensures 1 <= k.c && ReadsAs(db.customers[k].c_last, k.c - 1)
  {
    hide Loaded, ReadsAs;
    RowOfLoad(db, load, z, k);
  }

  lemma RowOfLoad(db: DB, load: Load, z: Settings, k: CustId)
    requires Loaded(db, load, z) && k in db.customers
    ensures CustomerMade(k, db.customers[k], z.customers)
  {
    hide Consistent, Populated, CustomerMade;
  }

  // ---------------------------------------------------------------- asking by name

  /** In every state of every run, every name that the client can draw is that of a customer in every
      district, so that the search finds somebody. */
  lemma NameFound(db: DB, load: Load, z: Settings, steps: seq<Step>, dk: DistId, num: nat)
    requires Loaded(db, load, z) && AllEnabled(State(db, []), steps) && dk in db.districts && num <= 999 && num < z.customers
    ensures var d, k := Run(State(db, []), steps).db, CustId(dk.w, dk.d, num + 1);
            k in d.customers && Matches(d.customers[k], dk.w, dk.d, LastName(num))
  {
    hide Consistent, RowsMade, Run, AllEnabled, LinesKnown, LastName, ReadsAs;
    var k := CustId(dk.w, dk.d, num + 1);
    LoadedHas(db, load, z, k);
    NameReads(num, db.customers[k].c_last);
    NameOfLoad(db, load, z, k);
    RunKeeps(db, steps, load);
    RowOfLoad(db, load, z, k);
  }

  lemma LoadedHas(db: DB, load: Load, z: Settings, k: CustId)
    requires Loaded(db, load, z) && DistId(k.w, k.d) in db.districts && 1 <= k.c <= z.customers
    ensures k in db.customers
  {
    hide Consistent, RowsMade;
  }

  // ---------------------------------------------------------------- customers with the same names

  /** With at most 1000 customers in a district no two have the same four fields. */
  lemma FewDiffer(db: DB, load: Load, z: Settings)
    requires Loaded(db, load, z) && z.customers <= 1000
    ensures NoTwins(db.customers, db.customers.Keys)
  {
    hide Loaded, FirstDigit, LastNameMade;
    forall j, k | j in db.customers && k in db.customers && KeyOf(db.customers[j]) == KeyOf(db.customers[k]) ensures j == k {
      RowOfLoad(db, load, z, j);
      RowOfLoad(db, load, z, k);
      NameOfLoad(db, load, z, j);
      NameOfLoad(db, load, z, k);
    }
  }

  /** The same customer with other names. */
  function Renamed(db: DB, k: CustId, first: string, last: string): DB
    requires k in db.customers
  {
    db.(customers := db.customers[k := db.customers[k].(c_first := first, c_last := last)])
  }

  lemma RenamedBalances(db: DB, k: CustId, first: string, last: string)
    requires k in db.customers && BalancesRight(db)
    ensures BalancesRight(Renamed(db, k, first, last))
  {
    forall j | j in db.customers ensures BalanceRight(Renamed(db, k, first, last), j) {
      assert BalanceRight(db, j);
    }
  }

  lemma RenamedRest(db: DB, load: Load, k: CustId, first: string, last: string)
    requires k in db.customers
    requires RefsBelow(db, db.nextRef) && Population(db) && Dense(db) && YtdRight(db, load) && StockRight(db, load)
    ensures var db' := Renamed(db, k, first, last);
            RefsBelow(db', db'.nextRef) && Population(db') && Dense(db') && YtdRight(db', load) && StockRight(db', load)
  {
  }

  lemma RenamedRows(db: DB, k: CustId, first: string, last: string, now: string, c: nat, new': int)
    requires k in db.customers && RowsMade(db, now, c, new') && IsName(first, 6, 10) && LastNameMade(k.c, last, c)
    ensures RowsMade(Renamed(db, k, first, last), now, c, new')
  {
    hide LastNameMade;
    assert CustomerMade(k, db.customers[k], c);
    assert CustomerMade(k, db.customers[k].(c_first := first, c_last := last), c);
  }

  lemma RenamedPopulated(db: DB, k: CustId, first: string, last: string, c: nat, new': int)
    requires k in db.customers && Populated(db, c, new')
    ensures Populated(Renamed(db, k, first, last), c, new')
  {
    hide CreditDealt;
    forall dk | dk in db.districts ensures CreditDealt(Renamed(db, k, first, last).customers, dk, c) {
      CreditKept(db.customers, Renamed(db, k, first, last).customers, dk, c);
    }
  }

  /** A load that draws other names for a customer is a load too. */
  lemma RenamedLoaded(db: DB, load: Load, z: Settings, k: CustId, first: string, last: string)
    requires Loaded(db, load, z) && k in db.customers && IsName(first, 6, 10) && LastNameMade(k.c, last, z.customers)
    ensures Loaded(Renamed(db, k, first, last), load, z)
  {
    hide Population, IndexAgreement, Dense, Queue, OrdersSound, LinesSound, EveryoneOrdered, BalancesRight, YtdRight,
      RefsBelow, StockRight, Populated, RowsMade, LastNameMade;
    SameOrders(db, Renamed(db, k, first, last));
    RenamedBalances(db, k, first, last);
    RenamedRest(db, load, k, first, last);
    RenamedRows(db, k, first, last, z.now, z.customers, z.FirstNew());
    RenamedPopulated(db, k, first, last, z.customers, z.FirstNew());
  }

  /** With more than 1000 customers, whatever the other settings are, some load draws the names of
      customer 1 for customer 1001 ... */
  lemma TwinsDrawn(db: DB, load: Load, z: Settings, dk: DistId) returns (other: DB)
    requires Loaded(db, load, z) && dk in db.districts && z.customers > 1000
    ensures var j, k := CustId(dk.w, dk.d, 1), CustId(dk.w, dk.d, 1001);
            && j in db.customers && k in db.customers
            && other == Renamed(db, k, db.customers[j].c_first, db.customers[j].c_last)
            && Loaded(other, load, z) && KeyOf(other.customers[j]) == KeyOf(other.customers[k])
  {
    hide Loaded, ReadsAs;
    var j, k := CustId(dk.w, dk.d, 1), CustId(dk.w, dk.d, 1001);
    LoadedHas(db, load, z, j);
    LoadedHas(db, load, z, k);
    NameOfLoad(db, load, z, j);
    RowOfLoad(db, load, z, j);
    RowOfLoad(db, load, z, k);
    var row := db.customers[j];
    assert ReadsAs(row.c_last, 0);
    other := Renamed(db, k, row.c_first, row.c_last);
    RenamedLoaded(db, load, z, k, row.c_first, row.c_last);
  }

  /** ... so that exactly the loads with at most 1000 customers in a district never have two with the same
      four fields, as tpcctables.cc:710 asserts. */
  lemma NamesDifferExactly(db: DB, load: Load, z: Settings, dk: DistId)
    requires Loaded(db, load, z) && dk in db.districts
    ensures (forall other: DB | Loaded(other, load, z) :: NoTwins(other.customers, other.customers.Keys)) <==> z.customers <= 1000
  {
    hide Loaded, KeyOf;
    if z.customers <= 1000 {
      forall other: DB | Loaded(other, load, z) ensures NoTwins(other.customers, other.customers.Keys) {
        FewDiffer(other, load, z);
      }
    } else {
      var other := TwinsDrawn(db, load, z, dk);
      assert CustId(dk.w, dk.d, 1) != CustId(dk.w, dk.d, 1001);
    }
  }

  /** A load in which the assertion fails: 1001 customers, and customer 1001 draws the names of customer 1. */
  lemma TwinsAfterLoad() returns (db: DB, load: Load)
    ensures Loaded(db, load, SmallSettings(1001, 1))
    ensures CustId(1, 1, 1) in db.customers && CustId(1, 1, 1001) in db.customers
    ensures KeyOf(db.customers[CustId(1, 1, 1)]) == KeyOf(db.customers[CustId(1, 1, 1001)])
    ensures !NoTwins(db.customers, db.customers.Keys)
  {
    hide Loaded, LastName;
    db, load := SmallLoad(1001, 1);
    assert db.customers[CustId(1, 1, 1)] == SmallCustomer(1, 1001);
    assert db.customers[CustId(1, 1, 1001)] == SmallCustomer(1001, 1001);
  }

  /** No run makes the names of two customers the same, or different. */
  lemma RunDiffers(db: DB, load: Load, steps: seq<Step>)
    requires Consistent(db, load) && AllEnabled(State(db, []), steps)
    ensures var d := Run(State(db, []), steps).db;
            NoTwins(d.customers, d.customers.Keys) <==> NoTwins(db.customers, db.customers.Keys)
  {
    hide Consistent, Run, AllEnabled, SameNames, LinesKnown, NoTwins;
    RunKeeps(db, steps, load);
    TwinsKept(db.customers, Run(State(db, []), steps).db.customers);
  }
}
