/** The index by last name as what the code stores in it: pointers to rows of the customer table
    (tpcctables.cc:708-712, tpcctables.h). */
module NameIndex {
  import opened Rows
  import opened CustomerNames

  /** The row carries its own identifier, and a last name that the search by name can handle. */
  ghost predicate RowNamed(k: CustId, c: Customer) {
    IdOf(c) == k && Letters(c.c_last)
  }

  ghost predicate RowsNamed(customers: map<CustId, Customer>) {
    forall k | k in customers :: RowNamed(k, customers[k])
  }

  /** The same customers, with the same identifying fields. */
  ghost predicate SameNames(a: map<CustId, Customer>, b: map<CustId, Customer>) {
    a.Keys == b.Keys && forall k | k in a :: KeyOf(a[k]) == KeyOf(b[k]) && IdOf(a[k]) == IdOf(b[k])
  }

  predicate AllIn(names: seq<CustId>, customers: map<CustId, Customer>) {
    forall i | 0 <= i < |names| :: names[i] in customers
  }

  /** The rows that the index points at. */
  function Listing(names: seq<CustId>, customers: map<CustId, Customer>): (rows: seq<Customer>)
    requires AllIn(names, customers)
    ensures |rows| == |names| && forall i | 0 <= i < |names| :: rows[i] == customers[names[i]]
  {
    seq(|names|, i requires 0 <= i < |names| => customers[names[i]])
  }

  /** Place `i` of the index has a customer with the four fields of `k`, and not a later one. */
  ghost predicate StandsAt(names: seq<CustId>, customers: map<CustId, Customer>, k: CustId, i: int) {
    && k in customers && 0 <= i < |names| && names[i] in customers
    && KeyOf(customers[names[i]]) == KeyOf(customers[k]) && names[i].c <= k.c
  }

  ghost predicate Stands(names: seq<CustId>, customers: map<CustId, Customer>, k: CustId) {
    exists i :: StandsAt(names, customers, k, i)
  }

  /** What the index holds once the customers in `done` have been inserted. */
  ghost predicate Lists(names: seq<CustId>, customers: map<CustId, Customer>, done: set<CustId>) {
    && done <= customers.Keys && (forall i | 0 <= i < |names| :: names[i] in done)
    && Ordered(Listing(names, customers)) && forall k | k in done :: Stands(names, customers, k)
  }

  lemma NothingListed(customers: map<CustId, Customer>)
    ensures Lists([], customers, {})
  {
  }

  /** No two of these customers have the same four fields. */
  ghost predicate NoTwins(customers: map<CustId, Customer>, among: set<CustId>)
    requires among <= customers.Keys
  {
    forall j, k | j in among && k in among && KeyOf(customers[j]) == KeyOf(customers[k]) :: j == k
  }

  /** insertCustomer on the index; nothing happens if a customer with the same four fields is there, and
      the assertion at tpcctables.cc:710 holds exactly if there is none. */
  method InsertName(names: seq<CustId>, customers: map<CustId, Customer>, k: CustId, ghost done: set<CustId>)
    returns (names': seq<CustId>, inserted: bool)
    requires Lists(names, customers, done) && k in customers && RowsNamed(customers)
    requires forall j | j in done && j.w == k.w && j.d == k.d :: j.c <= k.c
    ensures Lists(names', customers, done + {k})
    ensures inserted <==> forall j | j in done :: KeyOf(customers[j]) != KeyOf(customers[k])
  {
    hide KeyOf, Before, RowsNamed, Stands;
    var rows, p;
    rows, inserted, p := InsertByName(Listing(names, customers), customers[k]);
    names' := names;
    if inserted {
      names' := names[..p] + [k] + names[p..];
      assert Listing(names', customers) == rows;
    }
    StillStands(names, names', customers, k, p, inserted, done);
    InsertedExactly(names, customers, k, done);
  }

  /** A key is in the index if and only if it is that of a customer inserted before. */
  lemma InsertedExactly(names: seq<CustId>, customers: map<CustId, Customer>, k: CustId, done: set<CustId>)
    requires Lists(names, customers, done) && k in customers
    ensures (forall i | 0 <= i < |names| :: KeyOf(Listing(names, customers)[i]) != KeyOf(customers[k]))
            <==> forall j | j in done :: KeyOf(customers[j]) != KeyOf(customers[k])
  {
    hide KeyOf, Ordered, Stands;
    forall j | j in done && KeyOf(customers[j]) == KeyOf(customers[k])
      ensures exists i :: 0 <= i < |names| && KeyOf(Listing(names, customers)[i]) == KeyOf(customers[k])
    {
      var i := Standing(names, customers, done, j);
      assert KeyOf(Listing(names, customers)[i]) == KeyOf(customers[k]);
    }
  }

  lemma OneMoreDiffers(customers: map<CustId, Customer>, done: set<CustId>, k: CustId)
    requires done <= customers.Keys && k in customers && k !in done
    ensures NoTwins(customers, done + {k})
            <==> NoTwins(customers, done) && forall j | j in done :: KeyOf(customers[j]) != KeyOf(customers[k])
  {
    hide KeyOf;
  }

  /** All customers are in the index if and only if no two have the same four fields. */
  lemma AllListedExactly(names: seq<CustId>, customers: map<CustId, Customer>)
    requires Lists(names, customers, customers.Keys) && RowsNamed(customers)
    ensures (forall k | k in customers :: k in names) <==> NoTwins(customers, customers.Keys)
  {
    hide KeyOf, Lists, RowsNamed;
    if forall k | k in customers :: k in names {
      forall j, k | j in customers && k in customers && KeyOf(customers[j]) == KeyOf(customers[k]) ensures j == k {
        ListedExactly(names, customers, customers.Keys, j);
        ListedExactly(names, customers, customers.Keys, k);
        SameDistrict(customers, j, k);
      }
    }
    if NoTwins(customers, customers.Keys) {
      forall k | k in customers ensures k in names {
        ListedExactly(names, customers, customers.Keys, k);
      }
    }
  }

  lemma TwinsKept(a: map<CustId, Customer>, b: map<CustId, Customer>)
    requires SameNames(a, b)
    ensures NoTwins(a, a.Keys) <==> NoTwins(b, b.Keys)
  {
    hide KeyOf;
  }

  lemma StillStands(names: seq<CustId>, names': seq<CustId>, customers: map<CustId, Customer>, k: CustId,
                    p: nat, inserted: bool, done: set<CustId>)
    requires AllIn(names, customers) && k in customers && RowsNamed(customers) && p <= |names|
    requires forall i | 0 <= i < |names| :: names[i] in done
    requires forall j | j in done && j.w == k.w && j.d == k.d :: j.c <= k.c
    requires forall j | j in done :: Stands(names, customers, j)
    requires names' == if inserted then names[..p] + [k] + names[p..] else names
    requires !inserted ==> exists i :: 0 <= i < |names| && KeyOf(customers[names[i]]) == KeyOf(customers[k])
    ensures AllIn(names', customers) && forall j | j in done + {k} :: Stands(names', customers, j)
  {
    hide RowNamed, Stands;
    forall j | j in done + {k} ensures Stands(names', customers, j) {
      if j in done {
        StandsOn(names, names', customers, j, k, p, inserted);
      } else if inserted {
        StandsHere(names', customers, k, p);
      } else {
        var i :| 0 <= i < |names| && KeyOf(customers[names[i]]) == KeyOf(customers[k]);
        SameDistrict(customers, names[i], k);
        StandsThere(names, customers, k, i);
      }
    }
  }

  lemma StandsOn(names: seq<CustId>, names': seq<CustId>, customers: map<CustId, Customer>, j: CustId,
                 k: CustId, p: nat, inserted: bool)
    requires Stands(names, customers, j) && p <= |names|
    requires names' == if inserted then names[..p] + [k] + names[p..] else names
    ensures Stands(names', customers, j)
  {
    hide KeyOf;
    var i :| StandsAt(names, customers, j, i);
    assert StandsAt(names', customers, j, if inserted && i >= p then i + 1 else i);
  }

  lemma StandsHere(names: seq<CustId>, customers: map<CustId, Customer>, k: CustId, p: nat)
    requires p < |names| && names[p] == k && k in customers
    ensures Stands(names, customers, k)
  {
    assert StandsAt(names, customers, k, p);
  }

  lemma StandsThere(names: seq<CustId>, customers: map<CustId, Customer>, k: CustId, i: nat)
    requires i < |names| && k in customers && names[i] in customers
    requires KeyOf(customers[names[i]]) == KeyOf(customers[k]) && names[i].c <= k.c
    ensures Stands(names, customers, k)
  {
    assert StandsAt(names, customers, k, i);
  }

  /** The four fields tell the district. */
  lemma SameDistrict(customers: map<CustId, Customer>, j: CustId, k: CustId)
    requires RowsNamed(customers) && j in customers && k in customers && KeyOf(customers[j]) == KeyOf(customers[k])
    ensures j.w == k.w && j.d == k.d
  {
    assert RowNamed(j, customers[j]) && RowNamed(k, customers[k]);
  }

  /** A customer is in the index if and only if no customer before has the same four fields. */
  lemma ListedExactly(names: seq<CustId>, customers: map<CustId, Customer>, done: set<CustId>, k: CustId)
    requires Lists(names, customers, done) && RowsNamed(customers) && k in done
    ensures k in names <==> forall j | j in done && KeyOf(customers[j]) == KeyOf(customers[k]) :: k.c <= j.c
  {
    hide RowsNamed, Stands, KeyOf, Ordered;
    if k in names {
      forall j | j in done && KeyOf(customers[j]) == KeyOf(customers[k]) ensures k.c <= j.c {
        OnlyFirst(names, customers, done, k, j);
      }
    } else {
      var m := Standing(names, customers, done, k);
      SameDistrict(customers, names[m], k);
      assert names[m] != k;
    }
  }

  lemma Standing(names: seq<CustId>, customers: map<CustId, Customer>, done: set<CustId>, k: CustId) returns (m: nat)
    requires Lists(names, customers, done) && k in done
    ensures m < |names| && names[m] in done && KeyOf(customers[names[m]]) == KeyOf(customers[k]) && names[m].c <= k.c
  {
    hide KeyOf, Ordered;
    assert Stands(names, customers, k);
    m :| StandsAt(names, customers, k, m);
  }

  lemma OnlyFirst(names: seq<CustId>, customers: map<CustId, Customer>, done: set<CustId>, k: CustId, j: CustId)
    requires Lists(names, customers, done) && k in names && j in done && KeyOf(customers[j]) == KeyOf(customers[k])
    ensures k.c <= j.c
  {
    hide KeyOf, Stands, Ordered;
    var i :| 0 <= i < |names| && names[i] == k;
    var m := Standing(names, customers, done, j);
    Once(Listing(names, customers), i, m);
  }

  /** No two rows of the index have the same four fields. */
  lemma Once(rows: seq<Customer>, i: nat, m: nat)
    requires Ordered(rows) && i < |rows| && m < |rows| && KeyOf(rows[i]) == KeyOf(rows[m])
    ensures i == m
  {
    BeforeTotal(KeyOf(rows[i]), KeyOf(rows[m]), KeyOf(rows[i]));
  }

  /** The index is a matter of the identifying fields. */
  lemma SameNamesListed(names: seq<CustId>, a: map<CustId, Customer>, b: map<CustId, Customer>, done: set<CustId>)
    requires SameNames(a, b) && Lists(names, a, done) && RowsNamed(a)
    ensures Lists(names, b, done) && RowsNamed(b)
  {
    hide KeyOf, Before, Letters;
    SameRowsNamed(a, b);
    forall k | k in done ensures Stands(names, b, k) {
      assert Stands(names, a, k);
      var i :| StandsAt(names, a, k, i);
      assert StandsAt(names, b, k, i);
    }
    SameOrder(Listing(names, a), Listing(names, b));
  }

  lemma SameRowsNamed(a: map<CustId, Customer>, b: map<CustId, Customer>)
    requires SameNames(a, b) && RowsNamed(a)
    ensures RowsNamed(b)
  {
    forall k | k in b ensures RowNamed(k, b[k]) {
      assert RowNamed(k, a[k]) && KeyOf(a[k]).last == KeyOf(b[k]).last;
    }
  }

  lemma SameOrder(a: seq<Customer>, b: seq<Customer>)
    requires |a| == |b| && Ordered(a) && forall i | 0 <= i < |a| :: KeyOf(a[i]) == KeyOf(b[i])
    ensures Ordered(b)
  {
    hide KeyOf, Before;
    forall i, j | 0 <= i < j < |b| ensures Before(KeyOf(b[i]), KeyOf(b[j])) {
      assert Before(KeyOf(a[i]), KeyOf(a[j]));
    }
  }
}
