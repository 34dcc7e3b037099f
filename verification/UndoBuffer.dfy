/** The undo buffer as an object (tpccdb.h:344-412, tpccdb.cc:33-89). Its maps go from a row's
    address to the saved copy; rows that are never erased are named by their identifier. */
module UndoBuffer {
  import opened Rows

  class TPCCUndo {
    var modifiedWarehouses: map<int, Warehouse>
    var modifiedDistricts: map<DistId, District>
    var modifiedCustomers: map<CustId, Customer>
    var modifiedStock: map<StockId, Stock>
    var modifiedOrders: map<Ref, Order>
    var modifiedOrderLines: map<LineId, OrderLine>
    var insertedOrders: set<Ref>
    var insertedOrderLines: set<LineId>
    var insertedNewOrders: set<OrderId>
    var insertedHistory: set<Ref>
    var deletedNewOrders: set<OrderId>

    function View(): Undo
      reads this
    {
      Undo(modifiedWarehouses, modifiedDistricts, modifiedCustomers, modifiedStock, modifiedOrders, modifiedOrderLines,
           insertedOrders, insertedOrderLines, insertedNewOrders, insertedHistory, deletedNewOrders)
    }

    constructor ()
      ensures View() == EMPTY_UNDO
    {
      modifiedWarehouses, modifiedDistricts, modifiedCustomers, modifiedStock := map[], map[], map[], map[];
      modifiedOrders, modifiedOrderLines := map[], map[];
      insertedOrders, insertedOrderLines, insertedNewOrders, insertedHistory, deletedNewOrders := {}, {}, {}, {}, {};
    }

    method SaveWarehouse(k: int, row: Warehouse)
      modifies this
      ensures View() == old(View()).(warehouses := SaveIn(old(modifiedWarehouses), k, row))
    {
      modifiedWarehouses := CopyIfNeeded(modifiedWarehouses, k, row);
    }

    method SaveDistrict(k: DistId, row: District)
      modifies this
      ensures View() == old(View()).(districts := SaveIn(old(modifiedDistricts), k, row))
    {
      modifiedDistricts := CopyIfNeeded(modifiedDistricts, k, row);
    }

    method SaveCustomer(k: CustId, row: Customer)
      modifies this
      ensures View() == old(View()).(customers := SaveIn(old(modifiedCustomers), k, row))
    {
      modifiedCustomers := CopyIfNeeded(modifiedCustomers, k, row);
    }

    method SaveStock(k: StockId, row: Stock)
      modifies this
      ensures View() == old(View()).(stock := SaveIn(old(modifiedStock), k, row))
    {
      modifiedStock := CopyIfNeeded(modifiedStock, k, row);
    }

    method SaveOrder(r: Ref, row: Order)
      modifies this
      ensures View() == old(View()).(orders := SaveIn(old(modifiedOrders), r, row))
    {
      modifiedOrders := CopyIfNeeded(modifiedOrders, r, row);
    }

    method SaveOrderLine(k: LineId, row: OrderLine)
      modifies this
      ensures View() == old(View()).(lines := SaveIn(old(modifiedOrderLines), k, row))
    {
      modifiedOrderLines := CopyIfNeeded(modifiedOrderLines, k, row);
    }

    method InsertedOrder(r: Ref)
      requires r !in insertedOrders
      modifies this
      ensures View() == old(View()).(insertedOrders := old(insertedOrders) + {r})
    {
      insertedOrders := insertedOrders + {r};
    }

    method InsertedOrderLine(l: LineId)
      requires l !in insertedOrderLines
      modifies this
      ensures View() == old(View()).(insertedLines := old(insertedOrderLines) + {l})
    {
      insertedOrderLines := insertedOrderLines + {l};
    }

    method InsertedNewOrder(id: OrderId)
      requires id !in insertedNewOrders
      modifies this
      ensures View() == old(View()).(insertedNewOrders := old(insertedNewOrders) + {id})
    {
      insertedNewOrders := insertedNewOrders + {id};
    }

    method InsertedHistory(r: Ref)
      requires r !in insertedHistory
      modifies this
      ensures View() == old(View()).(insertedHistory := old(insertedHistory) + {r})
    {
      insertedHistory := insertedHistory + {r};
    }

    method DeletedNewOrder(id: OrderId)
      requires id !in deletedNewOrders
      modifies this
      ensures View() == old(View()).(deletedNewOrders := old(deletedNewOrders) + {id})
    {
      deletedNewOrders := deletedNewOrders + {id};
    }

    /** From here on the destructor does not delete the NEW-ORDER objects: the database has them. */
    method Applied()
      modifies this
      ensures View() == old(View()).(deletedNewOrders := {})
    {
      deletedNewOrders := {};
    }
  }

  /** A copy is made on the first save only: what was saved stays saved. */
  method CopyIfNeeded<K(==), V>(saved: map<K, V>, k: K, row: V) returns (r: map<K, V>)
    ensures r.Keys == saved.Keys + {k} && r[k] == (if k in saved then saved[k] else row)
    ensures forall j | j in saved :: r[j] == saved[j]
    ensures r == SaveIn(saved, k, row)
  {
    r := saved;
    if k !in saved {
      r := r[k := row];
    }
  }
}
