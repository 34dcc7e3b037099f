/** Row types, identifiers and constants of tpccdb.h. Money is in cents. Address, phone, zip and
    distribution-info fields are not part of this model. */
module Rows {
  const MAX_WAREHOUSE_ID := 100
  const DISTRICTS := 10
  const STOCK_PER_WAREHOUSE := 100_000
  const CUSTOMERS_PER_DISTRICT := 3000
  const MAX_OL_CNT := 15
  const MAX_ORDER_ID := 10_000_000
  const NULL_CARRIER_ID := 0
  const INVALID_QUANTITY := -1
  const STOCK_LEVEL_ORDERS := 20
  const MAX_DATA := 500
  const BAD_CREDIT := "BC"

  datatype Option<+T> = None | Some(value: T)

  // What identifies a row, before the code packs it into one integer key.
  datatype DistId = DistId(w: int, d: int)
  datatype CustId = CustId(w: int, d: int, c: int)
  datatype StockId = StockId(w: int, i: int)
  datatype OrderId = OrderId(w: int, d: int, o: int)
  datatype LineId = LineId(w: int, d: int, o: int, n: int)
  datatype CustOrderId = CustOrderId(w: int, d: int, c: int, o: int)

  datatype Item = Item(i_id: int, i_price: int)

  datatype Warehouse = Warehouse(w_id: int, w_tax: int, w_ytd: int, w_name: string)

  datatype District = District(d_id: int, d_w_id: int, d_tax: int, d_ytd: int, d_next_o_id: int, d_name: string)

  datatype Stock = Stock(s_i_id: int, s_w_id: int, s_quantity: int, s_ytd: int, s_order_cnt: int, s_remote_cnt: int)

  datatype Customer = Customer(c_id: int, c_d_id: int, c_w_id: int, c_credit_lim: int, c_discount: int,
                               c_balance: int, c_ytd_payment: int, c_payment_cnt: int, c_delivery_cnt: int,
                               c_first: string, c_last: string, c_credit: string, c_data: string)

  datatype Order = Order(o_id: int, o_c_id: int, o_d_id: int, o_w_id: int, o_carrier_id: int, o_ol_cnt: int,
                         o_all_local: bool, o_entry_d: string)

  datatype OrderLine = OrderLine(ol_o_id: int, ol_d_id: int, ol_w_id: int, ol_number: int, ol_i_id: int,
                                 ol_supply_w_id: int, ol_quantity: int, ol_amount: int, ol_delivery_d: string)

  datatype History = History(h_c_id: int, h_c_d_id: int, h_c_w_id: int, h_d_id: int, h_w_id: int,
                             h_amount: int, h_date: string, h_data: string)

  datatype NewOrderItem = NewOrderItem(i_id: int, ol_supply_w_id: int, ol_quantity: int)

  /** The address of an Order or History object: those rows are created and destroyed. */
  type Ref = int

  function OrderIdOf(o: Order): OrderId {
    OrderId(o.o_w_id, o.o_d_id, o.o_id)
  }

  function CustOrderIdOf(o: Order): CustOrderId {
    CustOrderId(o.o_w_id, o.o_d_id, o.o_c_id, o.o_id)
  }

  function IdOf(c: Customer): CustId {
    CustId(c.c_w_id, c.c_d_id, c.c_id)
  }

  function LineIdOf(l: OrderLine): LineId {
    LineId(l.ol_w_id, l.ol_d_id, l.ol_o_id, l.ol_number)
  }

  function DistOf(id: OrderId): DistId {
    DistId(id.w, id.d)
  }

  function OrderOfLine(l: LineId): OrderId {
    OrderId(l.w, l.d, l.o)
  }

  function StockIdOf(it: NewOrderItem): StockId {
    StockId(it.ol_supply_w_id, it.i_id)
  }

  /** All the tables. Rows that are never erased stand under their identifier; an Order or a
      History object has an address, so that two indexes can be seen to share it. */
  datatype DB = DB(
    items: seq<Item>,
    warehouses: map<int, Warehouse>,
    districts: map<DistId, District>,
    customers: map<CustId, Customer>,
    stock: map<StockId, Stock>,
    orders: map<OrderId, Ref>,
    ordersByCustomer: map<CustOrderId, Ref>,
    orderRows: map<Ref, Order>,
    lines: map<LineId, OrderLine>,
    newOrders: set<OrderId>,
    history: seq<Ref>,
    historyRows: map<Ref, History>,
    nextRef: Ref)

  const EMPTY_DB := DB([], map[], map[], map[], map[], map[], map[], map[], map[], {}, [], map[], 1)

  /** TPCCUndo: the first saved copy of every changed row, and what was inserted and deleted. */
  datatype Undo = Undo(
    warehouses: map<int, Warehouse>,
    districts: map<DistId, District>,
    customers: map<CustId, Customer>,
    stock: map<StockId, Stock>,
    orders: map<Ref, Order>,
    lines: map<LineId, OrderLine>,
    insertedOrders: set<Ref>,
    insertedLines: set<LineId>,
    insertedNewOrders: set<OrderId>,
    insertedHistory: set<Ref>,
    deletedNewOrders: set<OrderId>)

  const EMPTY_UNDO := Undo(map[], map[], map[], map[], map[], map[], {}, {}, {}, {}, {})

  /** The database together with the undo buffer that a transaction extends. */
  datatype Tx = Tx(db: DB, undo: Undo)

  /** copyIfNeeded: only the first copy of a row is kept. */
  function SaveIn<K, V>(saved: map<K, V>, k: K, row: V): map<K, V> {
    if k in saved then saved else saved[k := row]
  }
}
