/** How the code packs identifiers into one integer key (tpcctables.cc:668-859). The bitwise or with a
    32-bit order number below a shifted word is written as a sum. */
module Keys {
  import opened Rows
  import opened DeliverySpec

  const TWO_TO_32 := 0x1_0000_0000
  const INT32_MAX := 0x7fff_ffff
  const INT64_MAX := 0x7fff_ffff_ffff_ffff

  predicate WarehouseOk(w: int) { 1 <= w <= MAX_WAREHOUSE_ID }

  predicate DistOk(k: DistId) { WarehouseOk(k.w) && 1 <= k.d <= DISTRICTS }

  predicate StockOk(k: StockId) { WarehouseOk(k.w) && 1 <= k.i <= STOCK_PER_WAREHOUSE }

  predicate CustOk(k: CustId) { DistOk(DistId(k.w, k.d)) && 1 <= k.c <= CUSTOMERS_PER_DISTRICT }

  predicate OrderOk(k: OrderId) { DistOk(DistOf(k)) && 1 <= k.o <= MAX_ORDER_ID }

  predicate CustOrderOk(k: CustOrderId) { CustOk(CustId(k.w, k.d, k.c)) && 1 <= k.o <= MAX_ORDER_ID }

  predicate LineOk(k: LineId) { OrderOk(OrderOfLine(k)) && 1 <= k.n <= MAX_OL_CNT }

  function StockKey(k: StockId): int { k.i + k.w * STOCK_PER_WAREHOUSE }

  function DistrictKey(k: DistId): int { k.d + k.w * DISTRICTS }

  function CustomerKey(k: CustId): int { (k.w * DISTRICTS + k.d) * CUSTOMERS_PER_DISTRICT + k.c }

  function OrderKey(k: OrderId): int { (k.o * DISTRICTS + k.d) * MAX_WAREHOUSE_ID + k.w }

  function LineKey(k: LineId): int { OrderKey(OrderOfLine(k)) * MAX_OL_CNT + k.n }

  function CustOrderKey(k: CustOrderId): int { CustomerKey(CustId(k.w, k.d, k.c)) * TWO_TO_32 + k.o }

  function NewOrderKey(k: OrderId): int { (k.w * MAX_WAREHOUSE_ID + k.d) * TWO_TO_32 + k.o }

  // ---------------------------------------------------------------- no two rows share a key

  lemma StockKeyInjective(a: StockId, b: StockId)
    requires StockOk(a) && StockOk(b)
    ensures StockKey(a) == StockKey(b) <==> a == b
  {
  }

  lemma DistrictKeyInjective(a: DistId, b: DistId)
    requires DistOk(a) && DistOk(b)
    ensures DistrictKey(a) == DistrictKey(b) <==> a == b
  {
  }

  lemma CustomerKeyInjective(a: CustId, b: CustId)
    requires CustOk(a) && CustOk(b)
    ensures CustomerKey(a) == CustomerKey(b) <==> a == b
  {
  }

  lemma OrderKeyInjective(a: OrderId, b: OrderId)
    requires OrderOk(a) && OrderOk(b)
    ensures OrderKey(a) == OrderKey(b) <==> a == b
  {
  }

  lemma LineKeyInjective(a: LineId, b: LineId)
    requires LineOk(a) && LineOk(b)
    ensures LineKey(a) == LineKey(b) <==> a == b
  {
    OrderKeyInjective(OrderOfLine(a), OrderOfLine(b));
  }

  // ---------------------------------------------------------------- the two ordered keys

  predicate CustOrderLess(a: CustOrderId, b: CustOrderId) {
    a.w < b.w || (a.w == b.w && (a.d < b.d || (a.d == b.d && (a.c < b.c || (a.c == b.c && a.o < b.o)))))
  }

  /** The key of the customer index is ordered by warehouse, district, customer, order number. */
  lemma CustOrderKeyOrdered(a: CustOrderId, b: CustOrderId)
    requires CustOrderOk(a) && CustOrderOk(b)
    ensures CustOrderKey(a) < CustOrderKey(b) <==> CustOrderLess(a, b)
    ensures CustOrderKey(a) == CustOrderKey(b) <==> a == b
  {
  }

  predicate OrderLess(a: OrderId, b: OrderId) {
    a.w < b.w || (a.w == b.w && (a.d < b.d || (a.d == b.d && a.o < b.o)))
  }

  lemma NewOrderKeyOrdered(a: OrderId, b: OrderId)
    requires OrderOk(a) && OrderOk(b)
    ensures NewOrderKey(a) < NewOrderKey(b) <==> OrderLess(a, b)
    ensures NewOrderKey(a) == NewOrderKey(b) <==> a == b
  {
  }

  /** What std::map::lower_bound finds in the NEW-ORDER map. */
  ghost predicate IsLowerBound(s: set<OrderId>, key: int, id: OrderId) {
    && id in s && key <= NewOrderKey(id)
    && forall j | j in s && key <= NewOrderKey(j) :: NewOrderKey(id) <= NewOrderKey(j)
  }

  lemma {:induction false} LowerBoundExists(s: set<OrderId>, key: int, id: OrderId)
    requires id in s && key <= NewOrderKey(id)
    ensures exists low :: IsLowerBound(s, key, low)
    decreases NewOrderKey(id) - key
  {
    if j :| j in s && key <= NewOrderKey(j) < NewOrderKey(id) {
      LowerBoundExists(s, key, j);
    } else {
      assert IsLowerBound(s, key, id);
    }
  }

  /** The lower bound at a district's first key is the district's lowest order, if it is of the
      district at all; otherwise the district has none. */
  lemma LowerBoundIsLowest(s: set<OrderId>, dk: DistId, id: OrderId)
    requires DistOk(dk) && forall j | j in s :: OrderOk(j)
    requires IsLowerBound(s, NewOrderKey(OrderId(dk.w, dk.d, 1)), id)
    ensures Lowest(s, dk) == if DistOf(id) == dk then Some(id) else None
  {
    var first := OrderId(dk.w, dk.d, 1);
    forall j | j in s && DistOf(j) == dk ensures DistOf(id) == dk && id.o <= j.o {
      NewOrderKeyOrdered(j, first);
      NewOrderKeyOrdered(id, first);
      NewOrderKeyOrdered(j, id);
    }
  }

  lemma NoLowerBound(s: set<OrderId>, dk: DistId)
    requires DistOk(dk) && forall j | j in s :: OrderOk(j)
    requires forall j | j in s :: NewOrderKey(j) < NewOrderKey(OrderId(dk.w, dk.d, 1))
    ensures Lowest(s, dk) == None
  {
    forall j | j in s ensures DistOf(j) != dk {
      NewOrderKeyOrdered(j, OrderId(dk.w, dk.d, 1));
    }
  }

  // ---------------------------------------------------------------- ranges

  /** All keys are positive, and those of these tables always fit their integer type. */
  lemma KeysInRange(s: StockId, d: DistId, c: CustId, k: CustOrderId, o: OrderId)
    requires StockOk(s) && DistOk(d) && CustOk(c) && CustOrderOk(k) && OrderOk(o)
    ensures 0 < StockKey(s) <= INT32_MAX && 0 < DistrictKey(d) <= INT32_MAX && 0 < CustomerKey(c) <= INT32_MAX
    ensures 0 < CustOrderKey(k) <= INT64_MAX && 0 < NewOrderKey(o) <= INT64_MAX
  {
  }

  /** The bound on order numbers under which the 32-bit order key cannot overflow. */
  lemma OrderKeyRange(o: int)
    requires 1 <= o <= MAX_ORDER_ID
    ensures (forall w, d | DistOk(DistId(w, d)) :: 0 < OrderKey(OrderId(w, d, o)) <= INT32_MAX) <==> o <= 2_147_482
  {
    assert OrderKey(OrderId(MAX_WAREHOUSE_ID, DISTRICTS, o)) == o * 1000 + 1100;
    assert DistOk(DistId(MAX_WAREHOUSE_ID, DISTRICTS));
  }

  /** The same for order lines: far below the asserted MAX_ORDER_ID. */
  lemma LineKeyRange(o: int)
    requires 1 <= o <= MAX_ORDER_ID
    ensures (forall w, d, n | DistOk(DistId(w, d)) && 1 <= n <= MAX_OL_CNT :: 0 < LineKey(LineId(w, d, o, n)) <= INT32_MAX)
            <==> o <= 143_164
  {
    assert LineKey(LineId(MAX_WAREHOUSE_ID, DISTRICTS, o, MAX_OL_CNT)) == o * 15_000 + 16_515;
    assert DistOk(DistId(MAX_WAREHOUSE_ID, DISTRICTS));
  }

  /** An accepted order number whose line key does not fit. */
  lemma LineKeyOverflows()
    ensures LineOk(LineId(100, 10, 143_165, 15)) && LineKey(LineId(100, 10, 143_165, 15)) > INT32_MAX
  {
    assert LineKey(LineId(100, 10, 143_165, 15)) == 2_147_491_515;
  }

  // ---------------------------------------------------------------- tables under packed keys

  /** `byKey` is the table `byId`, with every row under its packed key. */
  ghost predicate Packs<K(!new), V(!new)>(byId: map<K, V>, byKey: map<int, V>, pack: K -> int) {
    && (forall k | k in byId :: pack(k) in byKey && byKey[pack(k)] == byId[k])
    && (forall i | i in byKey :: exists k :: k in byId && pack(k) == i)
  }

  lemma PackedInsert<K(!new), V(!new)>(byId: map<K, V>, byKey: map<int, V>, pack: K -> int, k: K, row: V)
    requires Packs(byId, byKey, pack) && forall j | j in byId && pack(j) == pack(k) :: j == k
    ensures Packs(byId[k := row], byKey[pack(k) := row], pack)
  {
    var a, b := byId[k := row], byKey[pack(k) := row];
    forall i | i in b ensures exists j :: j in a && pack(j) == i {
      if i != pack(k) {
        var j :| j in byId && pack(j) == i;
        assert j in a;
      } else {
        assert k in a;
      }
    }
  }

  lemma PackedErase<K(!new), V(!new)>(byId: map<K, V>, byKey: map<int, V>, pack: K -> int, k: K)
    requires Packs(byId, byKey, pack) && forall j | j in byId && pack(j) == pack(k) :: j == k
    ensures Packs(byId - {k}, byKey - {pack(k)}, pack)
  {
    var a, b := byId - {k}, byKey - {pack(k)};
    forall i | i in b ensures exists j :: j in a && pack(j) == i {
      var j :| j in byId && pack(j) == i;
      assert j in a;
    }
  }

  /** Looking up the packed key is looking up the row. */
  lemma PackedFind<K(!new), V(!new)>(byId: map<K, V>, byKey: map<int, V>, pack: K -> int, k: K)
    requires Packs(byId, byKey, pack) && forall j | j in byId && pack(j) == pack(k) :: j == k
    ensures k in byId <==> pack(k) in byKey
    ensures k in byId ==> byKey[pack(k)] == byId[k]
  {
    var i := pack(k);
    if i in byKey {
      var j :| j in byId && pack(j) == i;
    }
  }
}
