/** The payment transaction (tpcctables.cc:355-502) as a function of the database. */
module PaymentSpec {
  import opened Rows

  /** The move and copy at tpcctables.cc:477-485: the new record goes first, and what no longer
      fits falls off the end. */
  function PushRecord(record: string, data: string): (r: string)
    requires |record| <= MAX_DATA
    ensures |data| <= MAX_DATA ==> |r| <= MAX_DATA
  {
    var keep := if |data| + |record| > MAX_DATA then MAX_DATA - |record| else |data|;
    record + data[..keep]
  }

  function PayCustomer(c: Customer, amount: int, record: string): Customer
    requires |record| <= MAX_DATA
  {
    var paid := c.(c_balance := c.c_balance - amount,
                   c_ytd_payment := c.c_ytd_payment + amount,
                   c_payment_cnt := c.c_payment_cnt + 1);
    if c.c_credit == BAD_CREDIT then paid.(c_data := PushRecord(record, c.c_data)) else paid
  }

  function HistoryFor(w: Warehouse, d: District, dk: DistId, cust: CustId, amount: int, now: string): History {
    History(cust.c, cust.d, cust.w, dk.d, dk.w, amount, now, w.w_name + "    " + d.d_name)
  }

  predicate HomeReady(db: DB, dk: DistId) {
    dk.w in db.warehouses && dk in db.districts
  }

  /** paymentHome. */
  function PaymentHome(t: Tx, dk: DistId, cust: CustId, amount: int, now: string): Tx
    requires HomeReady(t.db, dk)
  {
    var db, u := t.db, t.undo;
    var w, d, r := db.warehouses[dk.w], db.districts[dk], db.nextRef;
    Tx(db.(warehouses := db.warehouses[dk.w := w.(w_ytd := w.w_ytd + amount)],
           districts := db.districts[dk := d.(d_ytd := d.d_ytd + amount)],
           history := db.history + [r],
           historyRows := db.historyRows[r := HistoryFor(w, d, dk, cust, amount, now)],
           nextRef := r + 1),
       u.(warehouses := SaveIn(u.warehouses, dk.w, w),
          districts := SaveIn(u.districts, dk, d),
          insertedHistory := u.insertedHistory + {r}))
  }

  /** internalPaymentRemote on the tables. */
  function PaymentRemote(t: Tx, cust: CustId, amount: int, record: string): Tx
    requires cust in t.db.customers && |record| <= MAX_DATA
  {
    var c := t.db.customers[cust];
    Tx(t.db.(customers := t.db.customers[cust := PayCustomer(c, amount, record)]),
       t.undo.(customers := SaveIn(t.undo.customers, cust, c)))
  }

  predicate PaymentReady(db: DB, dk: DistId, cust: CustId, record: string) {
    HomeReady(db, dk) && cust in db.customers && |record| <= MAX_DATA
  }

  function Payment(t: Tx, dk: DistId, cust: CustId, amount: int, now: string, record: string): Tx
    requires PaymentReady(t.db, dk, cust, record)
  {
    PaymentRemote(PaymentHome(t, dk, cust, amount, now), cust, amount, record)
  }

  // ---------------------------------------------------------------- c_data

  /** The customer's data after payments with these records, oldest first. */
  function PushAll(records: seq<string>, data: string): string
    requires forall i | 0 <= i < |records| :: |records[i]| <= MAX_DATA
  {
    if records == [] then data
    else PushRecord(records[|records| - 1], PushAll(records[..|records| - 1], data))
  }

  /** All the records, newest first, in front of the original data. */
  function NewestFirst(records: seq<string>, data: string): string {
    if records == [] then data
    else records[|records| - 1] + NewestFirst(records[..|records| - 1], data)
  }

  /** Section 2.5.2.2 of TPC-C: shifting and truncating at every payment is truncating once. */
  lemma {:induction false} DataIsPrefix(records: seq<string>, data: string)
    requires forall i | 0 <= i < |records| :: |records[i]| <= MAX_DATA
    requires |data| <= MAX_DATA
    ensures var all := NewestFirst(records, data);
            PushAll(records, data) == all[..if |all| > MAX_DATA then MAX_DATA else |all|]
  {
    if records != [] {
      DataIsPrefix(records[..|records| - 1], data);
    }
  }

  datatype Paid = Paid(amount: int, record: string)

  predicate RecordsFit(ps: seq<Paid>) {
    forall i | 0 <= i < |ps| :: |ps[i].record| <= MAX_DATA
  }

  /** The customer after these payments, oldest first. */
  function PayAll(c: Customer, ps: seq<Paid>): Customer
    requires RecordsFit(ps)
  {
    if ps == [] then c
    else
      var n := |ps| - 1;
      PayCustomer(PayAll(c, ps[..n]), ps[n].amount, ps[n].record)
  }

  function Records(ps: seq<Paid>): (r: seq<string>)
    ensures |r| == |ps| && forall i | 0 <= i < |ps| :: r[i] == ps[i].record
  {
    seq(|ps|, i requires 0 <= i < |ps| => ps[i].record)
  }

  /** After any sequence of payments: c_data is the first 500 characters of all the records, newest
      first, and the original data, for bad credit only; what is paid moves from the balance to the
      year-to-date payment. */
  lemma {:induction false} DataAfterPayments(c: Customer, ps: seq<Paid>)
    requires RecordsFit(ps) && |c.c_data| <= MAX_DATA
    ensures var all, d := NewestFirst(Records(ps), c.c_data), PayAll(c, ps);
            && d.c_credit == c.c_credit && d.c_payment_cnt == c.c_payment_cnt + |ps|
            && d.c_balance + d.c_ytd_payment == c.c_balance + c.c_ytd_payment
            && (c.c_credit == BAD_CREDIT ==> d.c_data == all[..if |all| > MAX_DATA then MAX_DATA else |all|])
            && (c.c_credit != BAD_CREDIT ==> d.c_data == c.c_data)
  {
    PayAllIs(c, ps);
    DataIsPrefix(Records(ps), c.c_data);
  }

  lemma {:induction false} PayAllIs(c: Customer, ps: seq<Paid>)
    requires RecordsFit(ps)
    ensures var d := PayAll(c, ps);
            && d.c_credit == c.c_credit && d.c_payment_cnt == c.c_payment_cnt + |ps|
            && d.c_balance + d.c_ytd_payment == c.c_balance + c.c_ytd_payment
            && d.c_data == if c.c_credit == BAD_CREDIT then PushAll(Records(ps), c.c_data) else c.c_data
  {
    if ps != [] {
      var n := |ps| - 1;
      PayAllIs(c, ps[..n]);
      assert Records(ps)[..n] == Records(ps[..n]);
    }
  }

  // ---------------------------------------------------------------- c_data in place

  const NUL := '\0'

  /** The string that a character buffer holds. */
  function CString(s: seq<char>): (r: string)
    ensures |r| <= |s| && r == s[..|r|] && NUL !in r && (|r| < |s| ==> s[|r|] == NUL)
  {
    if s == [] || s[0] == NUL then [] else [s[0]] + CString(s[1..])
  }

  lemma {:induction false} CStringIs(s: seq<char>, n: nat)
    requires n < |s| && s[n] == NUL && NUL !in s[..n]
    ensures CString(s) == s[..n]
  {
    if n > 0 {
      assert s[0] == s[..n][0];
      assert s[1..][..n - 1] == s[..n][1..];
      CStringIs(s[1..], n - 1);
    }
  }

  /** tpcctables.cc:477-486 on the 501 characters of c_data: the old text moves up, from its end so
      that nothing is overwritten before it has been moved, and the record goes in front. */
  method InsertRecord(buffer: array<char>, record: string)
    requires buffer.Length == MAX_DATA + 1 && NUL in buffer[..] && |record| <= MAX_DATA && NUL !in record
    modifies buffer
    ensures NUL in buffer[..] && CString(buffer[..]) == PushRecord(record, CString(old(buffer[..])))
  {
    hide CString;
    ghost var was := CString(buffer[..]);
    var keep := Strlen(buffer);
    if keep + |record| > MAX_DATA {
      keep := MAX_DATA - |record|;
    }
    assert forall j | 0 <= j < keep :: buffer[j] == was[j];
    MoveUp(buffer, |record|, keep);
    CopyIn(buffer, record);
    buffer[|record| + keep] := NUL;
    assert buffer[..|record| + keep] == record + was[..keep];
    CStringIs(buffer[..], |record| + keep);
    assert buffer[..][|record| + keep] == NUL;
  }

  /** memmove from the start of the buffer to `distance` characters further on. */
  method MoveUp(buffer: array<char>, distance: nat, n: nat)
    requires distance + n < buffer.Length
    modifies buffer
    ensures forall j | 0 <= j < n :: buffer[distance + j] == old(buffer[j])
  {
    var i := n;
    while i > 0
      invariant 0 <= i <= n
      invariant forall j | 0 <= j < i :: buffer[j] == old(buffer[j])
      invariant forall j | i <= j < n :: buffer[distance + j] == old(buffer[j])
    {
      i := i - 1;
      buffer[distance + i] := buffer[i];
    }
  }

  method CopyIn(buffer: array<char>, record: string)
    requires |record| <= buffer.Length
    modifies buffer
    ensures buffer[..|record|] == record && forall j | |record| <= j < buffer.Length :: buffer[j] == old(buffer[j])
  {
    var i := 0;
    while i < |record|
      invariant 0 <= i <= |record|
      invariant forall j | 0 <= j < i :: buffer[j] == record[j]
      invariant forall j | |record| <= j < buffer.Length :: buffer[j] == old(buffer[j])
    {
      buffer[i] := record[i];
      i := i + 1;
    }
  }

  method Strlen(buffer: array<char>) returns (n: nat)
    requires NUL in buffer[..]
    ensures n == |CString(buffer[..])| < buffer.Length
  {
    n := 0;
    while buffer[n] != NUL
      invariant n < buffer.Length && NUL !in buffer[..n]
      decreases buffer.Length - n
    {
      n := n + 1;
      assert NUL in buffer[n..] by {
        assert buffer[..] == buffer[..n] + buffer[n..];
        assert buffer[..n] == buffer[..n - 1] + [buffer[n - 1]];
      }
    }
    CStringIs(buffer[..], n);
  }
}
