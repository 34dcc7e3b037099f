/** The home part, the remote parts in any order, and the combining step together do what one
    left-to-right pass over the items does (tpcctables.cc:160-339, tpccdb.cc:91-111). */
module NewOrderSplit {
  import opened Sequences
  import opened Rows
  import opened NewOrderSpec

  /** One stock row after those of the first `n` items that are for it. */
  function RowAfter(row: Stock, k: StockId, home: int, items: seq<NewOrderItem>, n: nat): Stock
    requires n <= |items|
  {
    if n == 0 then row
    else
      var r := RowAfter(row, k, home, items, n - 1);
      if StockIdOf(items[n - 1]) == k then StockStep(r, items[n - 1].ol_quantity, k.w != home) else r
  }

  lemma {:induction false} RemotePassRows(stock: map<StockId, Stock>, saved: map<StockId, Stock>, home: int,
                                          remote: int, items: seq<NewOrderItem>, n: nat)
    requires StockPresent(stock, items) && n <= |items|
    ensures var p := RemotePass(stock, saved, home, remote, items, n);
            && (forall k | k in stock ::
                  p.stock[k] == if k.w == remote then RowAfter(stock[k], k, home, items, n) else stock[k])
            && (forall i | 0 <= i < n ::
                  p.out[i] == if items[i].ol_supply_w_id == remote
                              then RowAfter(stock[StockIdOf(items[i])], StockIdOf(items[i]), home, items, i + 1).s_quantity
                              else INVALID_QUANTITY)
  {
    hide StockStep, SaveIn;
    if n > 0 {
      RemotePassRows(stock, saved, home, remote, items, n - 1);
      hide RowAfter;
      forall k | k in stock { RowStep(stock[k], k, home, items, n); }
    }
  }

  /** One more item is for the row or it is not. */
  lemma RowStep(row: Stock, k: StockId, home: int, items: seq<NewOrderItem>, n: nat)
    requires 0 < n <= |items|
    ensures var r, it := RowAfter(row, k, home, items, n - 1), items[n - 1];
            RowAfter(row, k, home, items, n) == if StockIdOf(it) == k then StockStep(r, it.ol_quantity, k.w != home) else r
  {
  }

  lemma {:induction false} WholePassRows(stock: map<StockId, Stock>, home: int, items: seq<NewOrderItem>, n: nat)
    requires StockPresent(stock, items) && n <= |items|
    ensures var p := WholePass(stock, home, items, n);
            && (forall k | k in stock :: p.stock[k] == RowAfter(stock[k], k, home, items, n))
            && (forall i | 0 <= i < n ::
                  p.out[i] == RowAfter(stock[StockIdOf(items[i])], StockIdOf(items[i]), home, items, i + 1).s_quantity)
  {
    hide StockStep, SaveIn;
    if n > 0 {
      WholePassRows(stock, home, items, n - 1);
      hide RowAfter;
      forall k | k in stock { RowStep(stock[k], k, home, items, n); }
    }
  }

  /** A row that none of the items is for stays as it is. */
  lemma {:induction false} RowUntouched(row: Stock, k: StockId, home: int, items: seq<NewOrderItem>, n: nat)
    requires n <= |items| && forall i | 0 <= i < n :: StockIdOf(items[i]) != k
    ensures RowAfter(row, k, home, items, n) == row
  {
    if n > 0 {
      RowUntouched(row, k, home, items, n - 1);
    }
  }

  /** Each remote part changes the rows of its own warehouse, from what they were at the start. */
  lemma {:induction false} RemotePartsRows(t: Tx, home: int, ws: seq<int>, items: seq<NewOrderItem>)
    requires StockPresent(t.db.stock, items) && forall i, j | 0 <= i < j < |ws| :: ws[i] != ws[j]
    ensures var r := RemoteParts(t, home, ws, items);
            forall k | k in t.db.stock ::
              r.db.stock[k] == if k.w in ws then RowAfter(t.db.stock[k], k, home, items, |items|) else t.db.stock[k]
  {
    if ws != [] {
      var before, w := ws[..|ws| - 1], ws[|ws| - 1];
      RemotePartsRows(t, home, before, items);
      var s := RemoteParts(t, home, before, items);
      RemotePassRows(s.db.stock, s.undo.stock, home, w, items, |items|);
      assert ws == before + [w];
    }
  }

  /** The combined quantities: those of the warehouses in `ws`, unless the marker value hides one. */
  lemma {:induction false} RemoteOutsAre(t: Tx, home: int, ws: seq<int>, items: seq<NewOrderItem>, out: seq<int>)
    requires StockPresent(t.db.stock, items) && forall i, j | 0 <= i < j < |ws| :: ws[i] != ws[j]
    requires |out| == |items|
    ensures var r, whole := RemoteOuts(t, home, ws, items, out), WholePass(t.db.stock, home, items, |items|).out;
            forall i | 0 <= i < |items| ::
              r[i] == if items[i].ol_supply_w_id in ws && whole[i] != INVALID_QUANTITY then whole[i] else out[i]
  {
    hide RowAfter, RemotePass, WholePass;
    if ws != [] {
      var before, w := ws[..|ws| - 1], ws[|ws| - 1];
      RemoteOutsAre(t, home, before, items, out);
      RemotePartsRows(t, home, before, items);
      var s := RemoteParts(t, home, before, items);
      RemotePassRows(s.db.stock, s.undo.stock, home, w, items, |items|);
      WholePassRows(t.db.stock, home, items, |items|);
      assert ws == before + [w];
      assert w !in before;
    }
  }

  /** The assertion in newOrderCombine never fires on a fresh output struct. */
  lemma {:induction false} CombinesOnce(t: Tx, home: int, ws: seq<int>, w: int, items: seq<NewOrderItem>)
    requires StockPresent(t.db.stock, items) && w !in ws && forall i, j | 0 <= i < j < |ws| :: ws[i] != ws[j]
    ensures CanCombine(RemoteOut(RemoteParts(t, home, ws, items), home, w, items),
                       RemoteOuts(t, home, ws, items, Zeros(|items|)))
  {
    RemoteOutsAre(t, home, ws, items, Zeros(|items|));
    var s := RemoteParts(t, home, ws, items);
    RemotePassRows(s.db.stock, s.undo.stock, home, w, items, |items|);
  }

  /** Home first, then an enumeration of the remote warehouses: every item's warehouse comes once. */
  lemma AllWarehouses(home: int, items: seq<NewOrderItem>, ws: seq<int>)
    requires Enumerates(ws, RemoteWarehouses(home, items))
    ensures var all := [home] + ws;
            && (forall i, j | 0 <= i < j < |all| :: all[i] != all[j])
            && (forall i | 0 <= i < |items| :: items[i].ol_supply_w_id in all)
  {
    var all := [home] + ws;
    forall i, j | 0 <= i < j < |all| ensures all[i] != all[j] {
      if i == 0 { assert all[j] in ws; }
    }
    forall i | 0 <= i < |items| ensures items[i].ol_supply_w_id in all {
      assert items[i].ol_supply_w_id != home ==> items[i].ol_supply_w_id in RemoteWarehouses(home, items);
    }
  }

  lemma {:induction false} StockAgrees(t: Tx, home: int, items: seq<NewOrderItem>, ws: seq<int>)
    requires StockPresent(t.db.stock, items) && Enumerates(ws, RemoteWarehouses(home, items))
    ensures RemoteParts(t, home, [home] + ws, items).db.stock == WholePass(t.db.stock, home, items, |items|).stock
  {
    AllWarehouses(home, items, ws);
    RemotePartsRows(t, home, [home] + ws, items);
    WholePassRows(t.db.stock, home, items, |items|);
    forall k | k in t.db.stock && k.w !in [home] + ws
      ensures RowAfter(t.db.stock[k], k, home, items, |items|) == t.db.stock[k]
    {
      RowUntouched(t.db.stock[k], k, home, items, |items|);
    }
  }

  lemma {:induction false} QuantitiesAgree(t: Tx, home: int, items: seq<NewOrderItem>, ws: seq<int>)
    requires StockPresent(t.db.stock, items) && Enumerates(ws, RemoteWarehouses(home, items))
    ensures var out := WholePass(t.db.stock, home, items, |items|).out;
            RemoteOuts(t, home, [home] + ws, items, Zeros(|items|)) == out
            <==> forall i | 0 <= i < |items| :: out[i] != INVALID_QUANTITY
  {
    AllWarehouses(home, items, ws);
    var r, out := RemoteOuts(t, home, [home] + ws, items, Zeros(|items|)), WholePass(t.db.stock, home, items, |items|).out;
    RemoteOutsAre(t, home, [home] + ws, items, Zeros(|items|));
    assert forall i | 0 <= i < |items| :: r[i] == if out[i] != INVALID_QUANTITY then out[i] else 0;
  }

  /** The row of item `i` when its turn comes. */
  function RowBefore(stock: map<StockId, Stock>, home: int, items: seq<NewOrderItem>, i: nat): Stock
    requires StockPresent(stock, items) && i < |items|
  {
    RowAfter(stock[StockIdOf(items[i])], StockIdOf(items[i]), home, items, i)
  }

  /** A new quantity is the marker exactly when the row held 92 less than the quantity ordered. */
  lemma {:induction false} MarkerExactly(stock: map<StockId, Stock>, home: int, items: seq<NewOrderItem>, i: nat)
    requires StockPresent(stock, items) && i < |items|
    ensures WholePass(stock, home, items, |items|).out[i] == INVALID_QUANTITY
            <==> RowBefore(stock, home, items, i).s_quantity == items[i].ol_quantity - 92
  {
    WholePassRows(stock, home, items, |items|);
  }

  /** The split transaction and the single pass agree on every stock row, and on the reported
      quantities exactly when no new quantity is the marker for "not mine": when no item's row holds
      its quantity minus 92 as its turn comes. */
  lemma {:induction false} SplitAgrees(t: Tx, dk: DistId, c: int, items: seq<NewOrderItem>, now: string, ws: seq<int>)
    requires NewOrderReady(t.db, dk, c, items) && ItemsValid(t.db, items)
    requires Enumerates(ws, RemoteWarehouses(dk.w, items))
    ensures var whole := WholePass(t.db.stock, dk.w, items, |items|);
            && NewOrder(t, dk, c, items, now, ws).db == EnterOrder(t, dk, c, items, now).db.(stock := whole.stock)
            && (NewOrderQuantities(t, dk, c, items, now, ws) == whole.out
                <==> forall i | 0 <= i < |items| ::
                       RowBefore(t.db.stock, dk.w, items, i).s_quantity != items[i].ol_quantity - 92)
  {
    hide RowBefore, RowAfter, RemoteOuts, RemoteParts, WholePass;
    forall i | 0 <= i < |items|
      ensures WholePass(t.db.stock, dk.w, items, |items|).out[i] == INVALID_QUANTITY
              <==> RowBefore(t.db.stock, dk.w, items, i).s_quantity == items[i].ol_quantity - 92
    {
      MarkerExactly(t.db.stock, dk.w, items, i);
    }
    var e := EnterOrder(t, dk, c, items, now);
    StockAgrees(e, dk.w, items, ws);
    QuantitiesAgree(e, dk.w, items, ws);
  }

  // ---------------------------------------------------------------- remote quantities in a vector

  /** A vector that holds no quantity yet. */
  function Markers(n: nat): (s: seq<int>)
    ensures |s| == n && forall i | 0 <= i < n :: s[i] == INVALID_QUANTITY
  {
    seq(n, _ => INVALID_QUANTITY)
  }

  /** The remote quantities, combined into a vector of markers (tpccdb.cc:113-122). */
  function RemoteVector(t: Tx, home: int, ws: seq<int>, items: seq<NewOrderItem>): (v: seq<int>)
    requires StockPresent(t.db.stock, items)
    ensures |v| == |items|
  {
    RemoteOuts(t, home, ws, items, Markers(|items|))
  }

  /** The assertion in that newOrderCombine holds: a quantity meets a marker. */
  lemma VectorOnce(t: Tx, home: int, ws: seq<int>, w: int, items: seq<NewOrderItem>)
    requires StockPresent(t.db.stock, items) && w !in ws && forall i, j | 0 <= i < j < |ws| :: ws[i] != ws[j]
    ensures var v, next := RemoteVector(t, home, ws, items), RemoteOut(RemoteParts(t, home, ws, items), home, w, items);
            forall i | 0 <= i < |items| && next[i] != INVALID_QUANTITY :: v[i] == INVALID_QUANTITY
  {
    RemoteOutsAre(t, home, ws, items, Markers(|items|));
    var s := RemoteParts(t, home, ws, items);
    RemotePassRows(s.db.stock, s.undo.stock, home, w, items, |items|);
  }

  /** The home part changes no row that a remote item is for. */
  lemma HomeApart(t: Tx, home: int, items: seq<NewOrderItem>)
    requires StockPresent(t.db.stock, items)
    ensures var h := RemotePart(t, home, home, items);
            && StockPresent(h.db.stock, items)
            && forall i | 0 <= i < |items| && items[i].ol_supply_w_id != home ::
                 WholePass(h.db.stock, home, items, |items|).out[i] == WholePass(t.db.stock, home, items, |items|).out[i]
  {
    RemotePassRows(t.db.stock, t.undo.stock, home, home, items, |items|);
    var h := RemotePart(t, home, home, items);
    WholePassRows(t.db.stock, home, items, |items|);
    WholePassRows(h.db.stock, home, items, |items|);
  }

  lemma HomeOutIs(t: Tx, home: int, items: seq<NewOrderItem>)
    requires StockPresent(t.db.stock, items)
    ensures var own, out := RemoteOut(t, home, home, items), WholePass(t.db.stock, home, items, |items|).out;
            forall i | 0 <= i < |items| :: own[i] == if items[i].ol_supply_w_id == home then out[i] else INVALID_QUANTITY
  {
    RemotePassRows(t.db.stock, t.undo.stock, home, home, items, |items|);
    WholePassRows(t.db.stock, home, items, |items|);
  }

  /** The home part first, then the remote quantities combined into a vector, and that vector into the
      output: the assertion holds there too, and the output is what combining part by part gives, so
      that it agrees with one pass under the same condition. */
  lemma VectorFirst(t: Tx, home: int, items: seq<NewOrderItem>, ws: seq<int>)
    requires StockPresent(t.db.stock, items) && Enumerates(ws, RemoteWarehouses(home, items))
    ensures var h, own := RemotePart(t, home, home, items), Combine(RemoteOut(t, home, home, items), Zeros(|items|));
            && StockPresent(h.db.stock, items) && CanCombine(RemoteVector(h, home, ws, items), own)
            && Combine(RemoteVector(h, home, ws, items), own) == RemoteOuts(t, home, [home] + ws, items, Zeros(|items|))
            && (Combine(RemoteVector(h, home, ws, items), own) == WholePass(t.db.stock, home, items, |items|).out
                <==> forall i | 0 <= i < |items| :: RowBefore(t.db.stock, home, items, i).s_quantity != items[i].ol_quantity - 92)
  {
    hide RemotePart, RemoteOut, RemoteOuts, WholePass, RowBefore, RowAfter, RemotePass;
    var n := |items|;
    var h, out := RemotePart(t, home, home, items), WholePass(t.db.stock, home, items, n).out;
    var own := Combine(RemoteOut(t, home, home, items), Zeros(n));
    HomeApart(t, home, items);
    HomeOutIs(t, home, items);
    AllWarehouses(home, items, ws);
    var all, v := RemoteOuts(t, home, [home] + ws, items, Zeros(n)), RemoteVector(h, home, ws, items);
    RemoteOutsAre(t, home, [home] + ws, items, Zeros(n));
    RemoteOutsAre(h, home, ws, items, Markers(n));
    forall i | 0 <= i < n
      ensures v[i] == (if items[i].ol_supply_w_id != home then out[i] else INVALID_QUANTITY)
              && (out[i] == INVALID_QUANTITY <==> RowBefore(t.db.stock, home, items, i).s_quantity == items[i].ol_quantity - 92)
    {
      MarkerExactly(t.db.stock, home, items, i);
      assert items[i].ol_supply_w_id in [home] + ws;
      assert home !in ws;
    }
    assert Combine(v, own) == all;
    QuantitiesAgree(t, home, items, ws);
  }

  // ---------------------------------------------------------------- the quantity rule

  /** Section 2.4.2.2 of TPC-C: 10..100, and determined by the total ordered since `initial`. */
  predicate QuantityRule(s: Stock, initial: int) {
    10 <= s.s_quantity <= 100 && s.s_quantity == 10 + (initial - s.s_ytd - 10) % 91
  }

  lemma StepRule(s: Stock, q: int, remote: bool, initial: int)
    requires QuantityRule(s, initial) && 1 <= q <= 10
    ensures QuantityRule(StockStep(s, q, remote), initial)
  {
    ModStep(initial - s.s_ytd - 10, q);
  }

  /** Whatever is ordered, the row holds that much less, or 91 more than that exactly if fewer than 10 would be left. */
  lemma StepTakes(s: Stock, q: int, remote: bool)
    ensures var left, now := s.s_quantity - q, StockStep(s, q, remote).s_quantity;
            (now == left <==> left >= 10) && (now == left + 91 <==> left < 10)
  {
  }

  /** Ordering `q` more lowers the residue by `q`, wrapping at 91. */
  lemma ModStep(x: int, q: int)
    requires 1 <= q <= 10
    ensures (x - q) % 91 == if x % 91 >= q then x % 91 - q else x % 91 - q + 91
  {
  }

  /** The rule holds of every row after any number of items. */
  lemma {:induction false} RowRule(row: Stock, k: StockId, home: int, items: seq<NewOrderItem>, n: nat, initial: int)
    requires n <= |items| && QuantityRule(row, initial)
    requires forall i | 0 <= i < |items| :: 1 <= items[i].ol_quantity <= 10
    ensures QuantityRule(RowAfter(row, k, home, items, n), initial)
  {
    if n > 0 {
      RowRule(row, k, home, items, n - 1, initial);
      if StockIdOf(items[n - 1]) == k {
        StepRule(RowAfter(row, k, home, items, n - 1), items[n - 1].ol_quantity, k.w != home, initial);
      }
    }
  }

  /** With the quantities that TPC-C allows, the quantities agree always. */
  lemma {:induction false} QuantitiesInRange(stock: map<StockId, Stock>, home: int, items: seq<NewOrderItem>, initial: map<StockId, int>)
    requires StockPresent(stock, items) && forall k | k in stock :: k in initial && QuantityRule(stock[k], initial[k])
    requires forall i | 0 <= i < |items| :: 1 <= items[i].ol_quantity <= 10
    ensures forall i | 0 <= i < |items| :: 10 <= WholePass(stock, home, items, |items|).out[i] <= 100
  {
    WholePassRows(stock, home, items, |items|);
    forall i | 0 <= i < |items| ensures 10 <= WholePass(stock, home, items, |items|).out[i] <= 100 {
      var k := StockIdOf(items[i]);
      RowRule(stock[k], k, home, items, i + 1, initial[k]);
    }
  }
}
