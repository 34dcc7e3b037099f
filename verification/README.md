# Verified model of the tpccbench database core

tpccbench is a stand-alone in-memory TPC-C implementation: nine tables in B+ trees, a map and a vector, five
transactions of which three change the tables, and undo buffers that take a transaction back. This project
models its two layers in Dafny and proves what they rest on.

**The B+ tree** (`OrderedEntries`, `BTreeModel`, `BTreeInsert`, `BTreeSearch`, `BTreeRuns`, `BTree`).
`BTreeModel.Tree` is the value of a tree with the leaf arrays at full capacity, so that stale key slots are
visible; `BTreeInsert` and `BTreeSearch` follow the code on such values and prove the invariant and the map
contract; `BTree` is the code itself on heap nodes with full-size arrays, every method proved to do what those
functions say, and `BPlusTree` states the contract: a finite ordered map. `BTreeRuns` is about whole runs.

**The store with undo.** `Rows` holds the row types, one value `DB` for all tables and one value `Undo` for a
buffer. `NewOrderSpec`, `PaymentSpec`, `DeliverySpec` and `UndoSpec` say what each transaction and applyUndo do
to these values; `Tables`, `UndoBuffer` and `Generator` are the code: objects whose methods change rows, maps,
sets and vectors step by step and loop over sets in any order, proved against those functions. `Consistency`
states the conditions of section 3.3.2 of TPC-C together with index agreement, `Preservation` proves that every
transaction keeps them, `NewOrderSplit` that the home/remote split is one pass over the items, `Machine` that
runs of transactions, commits and undos keep everything and that undo is exact, `Unchanged` what no run changes.
Three modules say what transactions do without naming the functions that do it: `StockLaw` what the counters of a
stock row count, `DeliveryLaw` what a delivery does to the queue that it found, and `Ledger` what a list of commands
makes of a database; `Counters` and `Books` carry this through every run from the load, with undos and commits.
`Generated` says which rows the load can make, `Generator` that the load establishes all this, `SmallLoads` has one
load row by row, and `Reachable` draws the conclusions. `Keys` is about the packed
integer keys, `OrderStore` puts the order table's two indexes on two real B+ trees, `CustomerNames` is the search by
last name and `NameIndex` the index that it searches, `StatusSpec` says what order status shows, and `Database` holds
tables, trees and index together through the load, the transactions and undo. `StockLevel` is the stock level
transaction, `LoadedStock` when it finds what it reads, `LoadedNames` what asking by last name finds, `Sequences` a
few plain facts, `Random` the load's draws and its permutation.

What the project takes from the code as given: 1 to 15 items an order, item ids from 1, quantities 1..10,
carriers 1..10, a nonempty date, stock rows for every valid item, a fresh output structure. Money is in whole
cents. The text that snprintf makes of a payment is a parameter of at most 500 characters. Every draw is any
value of its range.

Results worth knowing beyond "it holds":

- A key 0 is lost by the tree when its search ends at an unused slot, and no other key ever is
  (`BTreeSearch.InsertMap`, `BTreeRuns.ZeroIsLost`). All TPC-C keys are positive (`Keys.KeysInRange`).
- A leaf capacity of 1 passes the constructor's assertion; the first split for a key that is not above the stored
  one then fails the assertion in leaf_insert_nonfull, and for no other key (`BTreeRuns.SplitLeavesRoom`).
- The comment at btree.h:169 and the one above `FindLastLessThanDeleted` in btree_test.cc:87 say that
  findLastLessThan does not work after deletions. The code does: `BTree.BPlusTree.FindLastLessThan`.
- The asserted bound MAX_ORDER_ID of 10000000 does not protect the 32-bit keys: lines fit up to order number
  143164, orders up to 2147482, for all warehouses and districts (`Keys.LineKeyRange`, `Keys.OrderKeyRange`).
- tpccdb.h:453 promises a quantity of 0 for an item of another warehouse; the code reports -1, and the combined
  quantities are right exactly when no item's row holds its quantity minus 92 when its turn comes
  (`NewOrderSplit.SplitAgrees`), which the quantity rule guarantees (`NewOrderSplit.QuantitiesInRange`).
- tpccdb.h:419 says that a null undo pointer means that nothing was modified. The converse does not hold: a
  delivery without anything to deliver allocates a buffer (`Tables.TPCCTables.Delivery`).
- One buffer can be applied if and only if it did not both insert and delete one NEW-ORDER row
  (`UndoSpec.UndoRestores`). A new order and then a delivery on one buffer reach that case exactly when the district
  had no older order to deliver (`Machine.OrderThenDelivery`).
- findLastOrderByCustomer needs every customer to have an order; without one it returns a stranger's order or
  nothing (`OrderStore.StrangersOrder`, `OrderStore.OrderStore.FindLastOrderByCustomer`). The load's permutation
  provides the order, and runs keep it (`Reachable.LastOrderFound`, `Database.StatusReady`).
- The year-to-date sums of sections 3.3.2.1 and 3.3.2.9 of TPC-C hold up to two constants of the load, which
  are 0 exactly for ten districts and 3000 customers each; the sums are then equal in every run
  (`Generator.FullSizeLoad`).
- The load draws the item of a line from 1..100000 whatever the number of items is (tpccgenerator.cc:199), so that
  with fewer items stockLevel can dereference a stock row that is not there (`LoadedStock.RowMissingAfterLoad`). It
  is safe after every load with given settings if and only if all 100000 items were loaded (`LoadedStock.LoadsStocked`),
  then stays safe in every run, and is safe after a smaller load once 20 orders of the district have been made
  (`LoadedStock.StockLevelReady`).
- The load asserts that no two customers of a district have the same last and first name (tpcctables.cc:710). With
  more than 1000 customers it draws last names, and the assertion can fail (`LoadedNames.TwinsAfterLoad`); it never
  does if and only if there are at most 1000 (`LoadedNames.NamesDifferExactly`). The client asks for names of the
  first 1000 customers only, and every district has them in every run (`LoadedNames.NameFound`).
- The read at btree.h:158 leaves the key array exactly when the leaf is full and the key is above all of its keys
  (`BTree.BPlusTree.OutOfBoundsExactly`, `BTreeRuns.DelPastLeaf`).

## Model

| member | source | states |
|---|---|---|
| OrderedEntries.UpsertContents | btree.h:379-391 | insert-or-overwrite of an entry is assignment on the denoted map; inserting on a tombstone revives it |
| BTreeModel.EntriesSorted | btree.h:234-262 | under the invariant the entries of all leaves, left to right, are strictly ascending |
| BTreeModel.RouteSeparates | btree.h:322-333 | everything left of the child chosen for a key is below it, everything right above it |
| BTreeInsert.InsertGood | btree.h:335-486 | every insertion below the root keeps the full invariant (uniform depth, strictly ascending nodes, 1..N separators, subtree keys inside their interval, every separator the minimum stored key on its right, stale leaf slots 0 or at or above the leaf's bound) and stores exactly the pair |
| BTreeInsert.LeafPutGood | btree.h:373-393 | the equality test without a bounds check never takes a stale key for a duplicate, except key 0 in an unused slot |
| BTreeInsert.LeafSplitGood | btree.h:342-365 | both halves of a split leaf keep the leaf invariant with the new separator between them |
| BTreeInsert.HalvesGood | btree.h:403-420 | the early split of a full inner node keeps the invariant on both halves and every stored pair |
| BTreeInsert.NewRootGood | btree.h:96-107 | the new root over the two halves is a valid tree one level deeper with the same entries |
| BTreeInsert.RootGood | btree.h:79-108 | insertion at the root keeps the invariant without an upper bound and stores the pair |
| BTreeSearch.FindRight | btree.h:113-138 | the leaf that the descent reaches answers for the whole tree |
| BTreeSearch.TombstoneRight | btree.h:145-164 | overwriting one value with 0 keeps the invariant, the keys and all other values |
| BTreeSearch.DelRight | btree.h:145-164 | deletion as an operation on the map, and exactly when it reports success |
| BTreeSearch.PreviousRight | btree.h:170-194 | one descent without backtracking finds the predecessor among all stored keys |
| BTreeSearch.SkipTombstone | btree.h:202-209 | restarting the search from a tombstone keeps the answer and shrinks the set of keys below |
| BTreeSearch.InsertMap | btree.h:77-108 | insertion is assignment on the map if and only if the key is not lost; only key 0 can be |
| BTreeSearch.LivePrevious | btree.h:193-202 | a live previous entry is the answer |
| BTreeSearch.NoPrevious | btree.h:186-213 | without a previous entry there is no smaller live key |
| BTreeRuns.RunIsMap | btree.h:77-164 | after any sequence of insertions of nonzero keys and in-bounds deletions the invariant holds and the tree denotes the map of latest nonzero values |
| BTreeRuns.FindAfterRun | btree.h:113-138 | after any such run from the empty tree, find answers from that map |
| BTreeRuns.SplitLeavesRoom | btree.h:342-376 | the half of a full leaf that the pair goes into has the room that leaf_insert_nonfull asserts exactly when M >= 2 or, with M = 1, when the new key is above the stored one; for all keys exactly when M >= 2 |
| BTreeRuns.HalfTakes | btree.h:342-361 | that half, at that place, is what a full leaf becomes on its side of the split |
| BTreeRuns.DelPastLeaf | btree.h:145-164 | a concrete run after which deleting a key above all others reads past the key array |
| BTreeRuns.ZeroIsLost | btree.h:379-383 | a concrete loss: key 0 inserted into a fresh tree is not found |
| BTree.BPlusTree.constructor | btree.h:57-71 | a new tree is valid and stands for the empty map; requires N > 2 and, beyond the asserted M > 0, M > 1 (see BTreeRuns.SplitLeavesRoom) |
| BTree.BPlusTree.Insert | btree.h:77-108 | on the heap, through leaf splits, early inner splits and root growth, the tree stays valid and its map is assigned the pair, exactly unless a nonzero value is put under a key that meets an unused zero slot (key 0 only); storing value 0 deletes |
| BTree.BPlusTree.Find | btree.h:110-138 | succeeds exactly for the keys of the map and returns their latest value |
| BTree.BPlusTree.Del | btree.h:141-164 | takes the key out of the map and keeps every stored key as it was; returns whether the key is physically stored (or is a key 0 taken for an unused slot) |
| BTree.BPlusTree.PresentInBounds | tpcctables.cc:639-648 | a live key makes the unguarded slot read at btree.h:158 stay inside the key array |
| BTree.BPlusTree.OutOfBoundsExactly | btree.h:145-158 | the unguarded read leaves the array exactly when the leaf that the search ends in is full and the key is above all of its keys |
| BTree.BPlusTree.FindLastLessThan | btree.h:166-214 | for any mix of insertions and tombstones returns the greatest live key below the given one with its value, and false exactly when there is none; the recursion past tombstones terminates on the stored keys below the key |
| BTree.LeafPositionFor | btree.h:292-318 | the loop finds the first live slot not below the key |
| BTree.InnerPositionFor | btree.h:322-333 | the loop counts the separators at or below the key |
| BTree.LeafInsertNonfull | btree.h:373-393 | the shifting loop turns the leaf's arrays into those of BTreeInsert.LeafPut, stale slots included |
| BTree.LeafInsert | btree.h:335-371 | yields the outcome of BTreeInsert.LeafInsert on disjoint nodes, all of them old or fresh |
| BTree.MoveUpperHalf | btree.h:344-352 | the fresh zero-filled sibling takes the slots from the threshold on; the old slots stay stale in the left leaf |
| BTree.InnerInsert | btree.h:395-433 | yields the outcome of BTreeInsert.Insert, splitting a full node on the way down |
| BTree.MoveUpperChildren | btree.h:404-420 | separators and children from the threshold on move to a fresh sibling, the separator between is handed up, and the two subtrees share no object |
| BTree.PlaceSplit | btree.h:465-485 | both cases of placing a split child shift separators and children alike and insert the separator and the two nodes at its position |
| BTree.PlaceInside | btree.h:474-483 | the separator and the two nodes go in between the others, which keep their order |
| BTree.InnerInsertNonfull | btree.h:435-486 | the node becomes BTreeInsert.InnerPut of what it was, on objects that it owned before or that are fresh |
| BTree.ShiftLeafSlots | btree.h:385-388 | keys and values from the position on move one slot up, the rest stays |
| BTree.LeafSplit | btree.h:342-365 | a full leaf becomes two that share nothing, with the pair in one of them |
| BTree.ShiftInnerSlots | btree.h:474-479 | separators and children from the position on move one slot up, the rest stays |
| BTree.InnerSplit | btree.h:403-427 | a full inner node becomes two, with the pair below one of them |
| BTree.CopyUpper | btree.h:406-414 | the fresh sibling's arrays start with the upper separators and children |
| BTree.InsertAtRoot | btree.h:82-107 | insertion below the root, and the new root if the old one was split |
| BTree.NewRoot | btree.h:96-106 | one separator, two children, and nothing else |
| BTree.FindLeaf | btree.h:113-124 | the cursor ends in the leaf that the key is routed to |
| BTree.FindLeafBefore | btree.h:170-184 | the cursor ends in the leaf of the predecessor |
| BTree.PositionBefore | btree.h:176-181 | the position, rewound when the separator equals the key |
| BTree.DelInLeaf | btree.h:155-163 | zeroing the value turns the whole tree into its tombstoned form and touches nothing else |
| Keys.StockKeyInjective | tpcctables.cc:668-674 | no two stock rows share a key |
| Keys.DistrictKeyInjective | tpcctables.cc:683-689 | no two districts share a key |
| Keys.CustomerKeyInjective | tpcctables.cc:698-706 | no two customers share a key |
| Keys.OrderKeyInjective | tpcctables.cc:763-772 | no two orders share a key |
| Keys.LineKeyInjective | tpcctables.cc:821-833 | no two order lines share a key |
| Keys.CustOrderKeyOrdered | tpcctables.cc:774-785 | the key of the customer index is injective and ordered by warehouse, district, customer and order number |
| Keys.NewOrderKeyOrdered | tpcctables.cc:850-859 | the NEW-ORDER key is injective and ordered by warehouse, district and order number |
| Keys.KeysInRange | tpcctables.cc:668-785 | these keys are positive and always fit their integer type |
| Keys.OrderKeyRange | tpcctables.cc:763-772 | the order key fits 32 bits for all warehouses and districts exactly when o_id <= 2147482 |
| Keys.LineKeyRange | tpcctables.cc:821-833 | the order-line key fits 32 bits for all warehouses, districts and line numbers exactly when o_id <= 143164 |
| Keys.LineKeyOverflows | tpcctables.cc:821-833 | a concrete line that passes the assertions and whose key does not fit |
| Keys.LowerBoundIsLowest | tpcctables.cc:516-528 | lower_bound at a district's first key, with the test of the district, finds the district's lowest new order, or that there is none |
| Keys.PackedInsert | tpcctables.cc:622-628 | inserting under a packed key is inserting the row under its identifier |
| Keys.PackedErase | tpcctables.cc:639-648 | erasing a packed key is erasing the row |
| Keys.PackedFind | tpcctables.cc:630-637 | looking up a packed key is looking up the row |
| Keys.NoLowerBound | tpcctables.cc:516-524 | when lower_bound finds nothing the district has no new order |
| OrderStore.OrderStore.InsertOrder | tpcctables.cc:787-794 | on two real B+ trees that share no node: the object at an unused address goes into both indexes under the keys of its own fields, and the indexes keep agreeing |
| OrderStore.OrderStore.EraseOrder | tpcctables.cc:810-819 | the object leaves both indexes; both asserted lookups succeed; an undone order number may be used again by anyone |
| OrderStore.OrderStore.FindOrder | tpcctables.cc:795-797 | finds exactly the order of that identifier |
| OrderStore.OrderStore.FindLastOrderByCustomer | tpcctables.cc:798-809 | returns the customer's own order with the largest number if and only if the customer has an order; otherwise a stranger's if a customer before has one, and nothing exactly if none has |
| OrderStore.OrderStore.RowsChange | tpcctables.cc:543-548 | changing an order in all but its identifying fields leaves both indexes right |
| OrderStore.LastBelow | tpcctables.cc:801-807 | the predecessor of the incremented key is the customer's own last order exactly when the customer has one |
| OrderStore.BelowNextCustomer | tpcctables.cc:801-804 | below the incremented key lie exactly the orders of this customer and of customers before |
| OrderStore.NoneBelow | tpcctables.cc:806-808 | when nothing is found neither the customer nor any customer before has an order |
| OrderStore.StrangersOrder | tpcctables.cc:798-809 | a concrete index in which a customer without an order gets the order of another customer |
| OrderStore.PutBoth | tpcctables.cc:787-793 | neither insertion touches the other tree |
| NewOrderSpec.RemoteWarehouses | tpccdb.cc:91-100 | exactly the other warehouses that supply an item |
| NewOrderSplit.SplitAgrees | tpcctables.cc:160-339 | home part, remote parts in any order of the warehouse set and combining change the database as one left-to-right pass over the items does, repeated items included; the reported quantities agree if and only if no item's row holds its quantity minus 92 when its turn comes |
| NewOrderSplit.MarkerExactly | tpcctables.cc:323-335 | a reported quantity is the marker -1 exactly when the row held 92 less than the quantity ordered |
| NewOrderSplit.CombinesOnce | tpccdb.cc:102-111 | the assertion that a quantity is combined once never fails on a fresh output |
| NewOrderSplit.VectorOnce | tpccdb.cc:113-122 | the assertion of the combining step on a vector of quantities never fails when it starts from markers |
| NewOrderSplit.VectorFirst | tpccdb.cc:91-122 | combining the remote quantities into a vector first, and that vector into the output of the home part, never fails an assertion either and gives what combining part by part gives, so that it agrees with one pass exactly under the same condition |
| NewOrderSplit.StepRule | tpcctables.cc:323-329 | one order of 1..10 keeps 10 <= s_quantity <= 100 and s_quantity = 10 + ((initial - s_ytd - 10) mod 91) |
| NewOrderSplit.StepTakes | tpcctables.cc:323-327 | whatever is ordered, the row holds that much less, or 91 more than that exactly if fewer than 10 would be left |
| NewOrderSplit.RowRule | tpcctables.cc:311-336 | the same over any number of items: the quantity depends on the initial one and on s_ytd only, which StockLaw.OrderCounts and Books.RunCounted say is the total ordered |
| NewOrderSplit.QuantitiesInRange | tpcctables.cc:323-329 | with TPC-C quantities no reported quantity is the marker |
| NewOrderSplit.RemotePartsRows | tpcctables.cc:298-339 | each part changes the rows of its own warehouse, from what they were at the start |
| NewOrderSplit.WholePassRows | tpcctables.cc:311-336 | one pass changes every row by its own items, in order |
| NewOrderSplit.StockAgrees | tpcctables.cc:160-179 | parts and pass agree on every stock row |
| NewOrderSplit.QuantitiesAgree | tpccdb.cc:102-111 | parts and pass agree on the quantities exactly when none is the marker |
| PaymentSpec.DataIsPrefix | tpcctables.cc:469-487 | shifting in and truncating at every payment is truncating once at the end |
| PaymentSpec.DataAfterPayments | tpcctables.cc:460-487 | after any payments of a bad-credit customer c_data is the first 500 characters of the records, newest first, and the original data; otherwise it is unchanged; balance plus year-to-date payment is constant |
| PaymentSpec.InsertRecord | tpcctables.cc:477-486 | the overlapping move and the copy on the character buffer give the pushed string |
| DeliverySpec.Lowest | tpcctables.cc:516-529 | the lowest numbered new order of a district, if there is any |
| UndoSpec.UndoRestores | tpcctables.cc:597-620 | a buffer that accounts for the changes since `base` can be applied if and only if no NEW-ORDER row was both inserted and deleted under it, and then every table, index, the NEW-ORDER set and the history sequence are those of `base` |
| UndoSpec.NewOrderCovers | tpcctables.cc:160-339 | a new order extends the buffer so that it still accounts for all changes |
| UndoSpec.PaymentCovers | tpcctables.cc:411-502 | so does a payment |
| UndoSpec.DeliveryCovers | tpcctables.cc:510-570 | so does a delivery |
| UndoSpec.CoversFits | tpccdb.cc:66-85 | the assertions that nothing is recorded twice hold |
| UndoSpec.FreshCovers | tpcctables.h:118-123 | a fresh buffer accounts for no change |
| UndoSpec.EnterOrderCovers | tpcctables.cc:219-286 | entering an order keeps the account |
| UndoSpec.RemotePartCovers | tpcctables.cc:307-336 | so does a remote part, when a row is changed several times too |
| UndoSpec.PaymentHomeCovers | tpcctables.cc:411-444 | so does the home part of a payment |
| UndoSpec.DeliverOrderCovers | tpcctables.cc:529-568 | so does delivering one order |
| Consistency.InsertKeepsIndex | tpcctables.cc:787-794 | a new row at an unused address under unused keys keeps orders_ and orders_by_customer_ in agreement |
| Consistency.EraseKeepsIndex | tpcctables.cc:810-819 | erasing under the object's own keys erases exactly its entries from both indexes |
| Consistency.ChangeKeepsIndex | tpcctables.cc:543-548 | so does changing rows in all but the fields that the keys are made of |
| Preservation.AddCore | tpcctables.cc:219-286 | adding the next order of a district keeps order numbers dense, the queue a suffix, carriers, lines, delivery dates, balances and stock right |
| Preservation.NewOrderConsistent | tpcctables.cc:160-339 | a new order keeps every condition of section 3.3.2 of TPC-C that is modelled, and its order number was unused |
| Preservation.PaymentConsistent | tpcctables.cc:355-502 | so does a payment |
| Preservation.DeliverConsistent | tpcctables.cc:529-568 | so does delivering a district's lowest order |
| Preservation.DeliveryConsistent | tpcctables.cc:510-570 | so does a whole delivery, and it finds every row that it dereferences |
| Preservation.AddIndex | tpcctables.cc:787-794 | the next order of a district keeps the two order indexes in agreement |
| Preservation.AddDense | tpcctables.cc:189-223 | order ids stay exactly 1 to d_next_o_id - 1 (section 3.3.2.2 of TPC-C) |
| Preservation.AddQueued | tpcctables.cc:239-239 | NEW-ORDER rows stay the last orders without a gap (section 3.3.2.3) |
| Preservation.AddOrders | tpcctables.cc:228-238 | the carrier stays null exactly for orders with a NEW-ORDER row (section 3.3.2.5) |
| Preservation.AddLines | tpcctables.cc:245-286 | lines stay numbered 1 to o_ol_cnt, without a date exactly while the order has no carrier (sections 3.3.2.6 and 3.3.2.7) |
| Preservation.AddBalances | tpcctables.cc:219-286 | an order that is not delivered, or worth nothing, changes nobody's delivered amounts |
| Preservation.PaymentYtd | tpcctables.cc:414-441 | w_ytd minus the sum of d_ytd, and d_ytd minus the district's payments, stay constant (sections 3.3.2.1 and 3.3.2.9) |
| Preservation.PaymentBalances | tpcctables.cc:466-467 | balances stay delivered amounts minus payments (sections 3.3.2.10 and 3.3.2.12) |
| Preservation.DeliverQueue | tpcctables.cc:530-531 | the queue loses its head and stays a suffix |
| Preservation.DeliverOrders | tpcctables.cc:543-548 | the delivered order gets a carrier and leaves the queue |
| Preservation.DeliverLines | tpcctables.cc:552-561 | its lines get their date, and no others |
| Preservation.DeliverBalances | tpcctables.cc:563-568 | its customer gains exactly the line amounts, and nobody else gains |
| Machine.RunSound | tpccdb.h:414-511 | in every state of every run of transactions with fresh or shared buffers, undoing newest-first and freeing oldest-first, all conditions hold and every held buffer accounts for exactly its changes |
| Machine.UndoSound | tpcctables.cc:597-620 | applying the newest buffer keeps this |
| Machine.UndoBack | tpccdb.h:416-419 | and gives back the database in which the buffer was fresh, but for the addresses handed out |
| Machine.UndoAllRestores | tpccdb.h:416-419 | undoing all held buffers newest-first is possible, if none of them both inserted and deleted one NEW-ORDER row, and gives back the database in which the oldest of them was fresh |
| Machine.SharedRunUndone | tpccdb.h:416-419 | so after a run without commits, with fresh and shared buffers, undoing everything gives back the database that the run began with |
| Machine.FreshRunUndone | tpccdb.h:416-419 | with a fresh buffer for every transaction, undos in between included, that is always possible and exact |
| Machine.OrderThenDelivery | tpcctables.cc:589-611 | a new order and then a delivery in its warehouse on one buffer: the buffer can be applied if and only if the district had an older order to deliver |
| Machine.DeliveredExactly | tpcctables.cc:510-531 | a delivery takes the lowest order out of the queue of every district of the warehouse, records exactly these, and leaves all other queues alone |
| Machine.LowestOfNext | tpcctables.cc:524-531 | the next order of a district is the first to be delivered exactly when the queue is empty |
| Machine.OneTransactionUndone | tpccdb.h:416-419 | a single new order, payment or delivery with a fresh buffer can always be undone exactly |
| Machine.NeverStuck | tpcctables.cc:190-190 | in every reachable state a delivery can run, and the next order number is unused |
| Machine.DoConsistent | tpccdb.h:422-511 | every transaction keeps all conditions |
| Machine.DoCovers | tpccdb.h:414-419 | every transaction extends the account of the buffer |
| Machine.FreshSound | tpccdb.h:416-417 | a transaction with a null undo pointer keeps the invariant of runs |
| Machine.ExtendSound | tpccdb.h:416-417 | so does a transaction that extends the newest buffer |
| Machine.FreeSound | tpcctables.h:54-54 | so does freeing the oldest buffer |
| UndoBuffer.CopyIfNeeded | tpccdb.cc:33-45 | only the first copy of a row is kept |
| UndoBuffer.TPCCUndo.SaveStock | tpccdb.cc:56-58 | the stock row is saved unless it was before; nothing else changes |
| UndoBuffer.TPCCUndo.SaveOrder | tpccdb.cc:59-61 | likewise for an order |
| UndoBuffer.TPCCUndo.SaveOrderLine | tpccdb.cc:62-64 | likewise for an order line |
| UndoBuffer.TPCCUndo.SaveDistrict | tpccdb.cc:50-52 | likewise for a district |
| UndoBuffer.TPCCUndo.SaveCustomer | tpccdb.cc:53-55 | likewise for a customer |
| UndoBuffer.TPCCUndo.SaveWarehouse | tpccdb.cc:47-49 | likewise for a warehouse |
| UndoBuffer.TPCCUndo.InsertedOrder | tpccdb.cc:66-69 | records an order that was not recorded before |
| UndoBuffer.TPCCUndo.DeletedNewOrder | tpccdb.cc:82-85 | records a NEW-ORDER row that left the database |
| UndoBuffer.TPCCUndo.Applied | tpccdb.cc:87-89 | forgets the deleted NEW-ORDER rows only |
| UndoBuffer.TPCCUndo.InsertedOrderLine | tpccdb.cc:70-73 | records a line that was not recorded before |
| UndoBuffer.TPCCUndo.InsertedNewOrder | tpccdb.cc:74-77 | records a NEW-ORDER row that was not recorded before |
| UndoBuffer.TPCCUndo.InsertedHistory | tpccdb.cc:78-81 | records a history row that was not recorded before |
| Tables.TPCCTables.AllocateUndo | tpcctables.h:118-123 | a buffer is allocated exactly when one is asked for and there is none |
| Tables.TPCCTables.FindAndValidateItems | tpcctables.cc:341-352 | succeeds exactly when no item id is past the number of items, with the items' rows in order |
| Tables.TPCCTables.TakeStock | tpcctables.cc:319-335 | one item's stock row, its saved copy and the reported quantity; what the new row means is the law of StockLaw.OneLineMore and NewOrderSplit.StepTakes |
| Tables.TPCCTables.NewOrderRemote | tpcctables.cc:298-339 | changes the stock of one warehouse and the buffer as NewOrderSpec.RemotePart says; an unknown item changes nothing |
| Tables.TPCCTables.CheckLocal | tpcctables.cc:205-213 | whether all items come from the home warehouse |
| Tables.TPCCTables.EnterHeader | tpcctables.cc:219-243 | the next order number is taken and the order and its NEW-ORDER row go in and are recorded |
| Tables.TPCCTables.EnterLines | tpcctables.cc:245-286 | the lines go in and are recorded; the output shows prices, amounts and their total |
| Tables.TPCCTables.NewOrderHome | tpcctables.cc:181-296 | commits exactly when all items exist; otherwise tables, buffer and buffer pointer are unchanged; the output fields |
| Tables.TPCCTables.NewOrder | tpcctables.cc:160-179 | the whole transaction for every iteration order of the set of remote warehouses, with the buffer and the output: every item's price and what it costs, and the total, which is the sum of the amounts of the order's lines |
| Tables.DoneShows | tpcctables.cc:252-286 | every item is shown with its price and with quantity times price, the total is the sum of these amounts, and it is what delivering the order will add up over its lines |
| Tables.NewOrderOutput.Combine | tpccdb.cc:102-111 | valid quantities fill in their items, the rest of the output stays |
| Tables.CombineInto | tpccdb.cc:113-122 | valid quantities replace the markers in the vector in place, which is one step of NewOrderSplit.RemoteVector |
| Tables.NewOrderRemoteWarehouses | tpccdb.cc:91-100 | the loop collects exactly the remote warehouses |
| Tables.TPCCTables.PaymentHome | tpcctables.cc:411-458 | warehouse, district and history change and are recorded; customer fields of the output are blank |
| Tables.TPCCTables.InternalPaymentRemote | tpcctables.cc:460-502 | the customer changes and is saved first; the output shows the new row field by field |
| Tables.PaymentOutput.Show | tpcctables.cc:488-501 | the output shows credit limit, discount, balance, names, credit and data of the customer |
| Tables.TPCCTables.Payment | tpcctables.cc:355-363 | both parts together, and the new customer row field by field in the output; what a payment pays is the law of Ledger.PaymentTold |
| Tables.TPCCTables.FindLowest | tpcctables.cc:516-528 | the search in the ordered NEW-ORDER map finds the district's lowest order |
| Tables.TPCCTables.DateLines | tpcctables.cc:550-561 | the loop dates lines 1 to o_ol_cnt, saves each first, and adds up their amounts |
| Tables.TPCCTables.DeliverFound | tpcctables.cc:529-568 | one order is delivered in the tables and in the buffer; what that means for a whole delivery is the law of DeliveryLaw.DeliveryIs |
| Tables.TPCCTables.Charge | tpcctables.cc:563-568 | the customer is saved first, charged the total and counted once, and no other row changes |
| Tables.TPCCTables.Delivery | tpcctables.cc:510-570 | one order for each of the ten districts, and the report of the orders delivered; its carrier, dates, charges and counts are the law of DeliveryLaw.DeliveryIs |
| Tables.RestoreFromMap | tpcctables.cc:572-578 | writing the saved copies back in any order restores exactly the saved rows |
| Tables.TPCCTables.EraseOrder | tpcctables.cc:810-819 | the order leaves both indexes under the keys of its own fields |
| Tables.TPCCTables.EraseHistory | tpcctables.cc:890-907 | the backward search finds the last occurrence and the last row takes its place |
| Tables.TPCCTables.EraseHistories | tpcctables.cc:608-608 | erasing the newest rows in any order of the set truncates the sequence |
| Tables.TPCCTables.ApplyUndo | tpcctables.cc:597-620 | the restoring and erasing loops, for any order of the sets, give UndoSpec.ApplyUndo |
| Tables.TPCCTables.InsertOrder | tpcctables.cc:787-794 | the row gets a new address that goes into both indexes |
| Tables.TPCCTables.InsertHistory | tpcctables.cc:885-889 | the row is appended under a new address |
| Tables.TPCCTables.ReadHeader | tpcctables.cc:187-196 | what the output shows before items are validated, for aborted orders too |
| Tables.TPCCTables.EnterOrderRows | tpcctables.cc:238-243 | order and NEW-ORDER row go in and are recorded |
| Tables.TPCCTables.EnterItem | tpcctables.cc:253-286 | one line goes in and is recorded and its output line filled |
| Tables.TPCCTables.AddToYtd | tpcctables.cc:414-426 | warehouse and district are saved and then changed |
| Tables.TPCCTables.RestoreRows | tpcctables.cc:598-603 | all six kinds of saved rows are back |
| Tables.TPCCTables.EraseOrders | tpcctables.cc:605-605 | all inserted orders leave both indexes, in any order of the set |
| Tables.TPCCTables.EraseOrderLines | tpcctables.cc:606-606 | all inserted lines leave the table |
| Tables.TPCCTables.EraseNewOrders | tpcctables.cc:607-607 | all inserted NEW-ORDER rows leave the map |
| Tables.TPCCTables.PutBackNewOrders | tpcctables.cc:610-616 | all deleted NEW-ORDER rows are back |
| Tables.TPCCTables.EraseOrderLine | tpcctables.cc:843-848 | one line leaves the table |
| Tables.TPCCTables.EraseNewOrder | tpcctables.cc:876-883 | one NEW-ORDER row leaves the map |
| Tables.TPCCTables.InsertItem | tpcctables.cc:650-653 | the item goes to the position of its id |
| Tables.TPCCTables.InsertWarehouse | tpcctables.cc:661-663 | the row goes in under its id and nothing else changes |
| Tables.TPCCTables.InsertStock | tpcctables.cc:676-678 | likewise |
| Tables.TPCCTables.InsertDistrict | tpcctables.cc:691-693 | likewise |
| Tables.TPCCTables.InsertCustomer | tpcctables.cc:708-712 | likewise, in the primary table |
| Tables.TPCCTables.InsertOrderLine | tpcctables.cc:835-839 | likewise |
| Tables.TPCCTables.InsertNewOrder | tpcctables.cc:861-868 | likewise |
| StockLevel.StockLevel | tpcctables.cc:54-116 | the number of different items on all lines of the last 20 orders whose home stock is below the threshold; it requires the stock rows of these lines only |
| StockLevel.CollectLines | tpcctables.cc:83-101 | stopping at the first missing line loses nothing |
| StockLevel.CountChanges | tpcctables.cc:104-113 | counting changes in the sorted list counts distinct items |
| StockLevel.OrderLinesOf | tpcctables.cc:143-157 | order status reports all lines of the order, in order, and there are no others |
| CustomerNames.BeforeTotal | tpcctables.cc:13-29 | the comparison is a strict total order on (warehouse, district, last name, first name) |
| CustomerNames.Gap | tpcctables.cc:728-737 | exactly which other last names fall between a name and the "next" name: one that goes on with a character below 'A', or past 16 characters |
| CustomerNames.BoundsMatch | tpcctables.cc:718-737 | for names over letters of at most 16 characters the two bounds delimit exactly the group |
| CustomerNames.FindCustomerByName | tpcctables.cc:717-761 | the half-speed iterator returns the customer at 0-based position floor((n - 1) / 2) of the n of that name, ordered by first name |
| CustomerNames.InsertByName | tpcctables.cc:708-712 | the element goes to its place in the order; a customer equal in all four fields is not stored |
| CustomerNames.LastName | randomgenerator.cc:123-138 | generated names are letters, 9 to 15 of them; which name belongs to which number is the law of CustomerNames.NameReads |
| CustomerNames.NameReads | randomgenerator.cc:123-138 | a reader that takes names apart from the left, by a table of syllables of its own, reads a name as 100a + 10b + c = num if and only if it is the name made for num, for every name and number |
| CustomerNames.LastNamesDiffer | randomgenerator.cc:123-138 | different numbers give different names, since each is read as its number |
| CustomerNames.StrTotal | tpcctables.cc:22-24 | strcmp is total and irreflexive |
| CustomerNames.StrTransitive | tpcctables.cc:22-24 | and transitive |
| CustomerNames.LowerBound | tpcctables.cc:724-737 | the first element that is not before the key |
| CustomerNames.SyllablesDiffer | randomgenerator.cc:124-126 | the syllables differ in their first three letters |
| NameIndex.InsertName | tpcctables.cc:708-712 | inserting the customers of a district in the order of their numbers keeps the index what it must be, and the asserted find fails exactly if a customer with the same four fields was inserted before |
| NameIndex.ListedExactly | tpcctables.cc:708-712 | a customer is in the index if and only if no customer with a lower number has the same four fields |
| NameIndex.AllListedExactly | tpcctables.cc:708-712 | all customers are in the index if and only if no two have the same four fields |
| NameIndex.SameNamesListed | tpcctables.h:138-139 | whatever else of the rows changes, the index stays right |
| StatusSpec.StatusShown | tpcctables.cc:129-158 | the customer's fields, the order's fields and, line by line, item, supplier, quantity, amount and date of all lines are those of the last order of the customer itself |
| StatusSpec.SomeoneListed | tpcctables.cc:717-737 | if a customer of the table has the name, the search finds somebody |
| StatusSpec.GroupComplete | tpcctables.cc:717-761 | the group that the middle one is taken of has the four fields of every customer of that name |
| Random.NumberExcluding | randomgenerator.cc:38-51 | any value of the range but the excluded one |
| Random.SkipOnto | randomgenerator.cc:42-48 | every other value comes from exactly one draw |
| Random.GenerateString | randomgenerator.cc:53-60 | a length in range, characters from the given alphabet |
| Random.MakePermutation | randomgenerator.cc:104-120 | in place: every value of the range exactly once |
| Random.ShuffleOnto | randomgenerator.cc:111-117 | every permutation can come out |
| Random.ShuffleUnique | randomgenerator.cc:111-117 | and from one sequence of draws only |
| Random.ShuffleKeeps | randomgenerator.cc:111-117 | the shuffle rearranges and leaves what is before its position |
| Generated.MadeNamed | tpccgenerator.cc:134-176 | the rows that the load can make carry their own identifiers and names that the search by name can handle |
| Generated.CreditKept | tpccgenerator.cc:253-260 | that a tenth of the customers of a district has bad credit is a matter of that district only |
| Generated.NumbersDrawn | randomgenerator.cc:70-72 | names are drawn for exactly the numbers up to 999 that are below the number of customers |
| Generator.SelectUniqueIds | tpccgenerator.cc:53-65 | the asked number of different ids, all in range |
| Generator.OpenCore | tpccgenerator.cc:249-251 | an empty district keeps the conditions |
| Generator.CustomerCore | tpccgenerator.cc:256-265 | a customer and its first payment keep the conditions |
| Generator.OrderFills | tpccgenerator.cc:271-288 | an order of the load with its lines keeps the conditions as if it were the district's next one |
| Generator.DistrictComplete | tpccgenerator.cc:270-290 | the permutation gives every customer of the district an order |
| Generator.FullSizeLoad | tpccdb.h:57-88 | w_ytd is the sum of the d_ytd exactly if ten districts were loaded, and d_ytd the sum of the payments exactly if 3000 customers were: in the loaded database and in every database that a run makes of it |
| Generator.TPCCGenerator.MakeStock | tpccgenerator.cc:226-236 | every item's row with a quantity in 10..100, which becomes the initial quantity |
| Generator.TPCCGenerator.MakeOrder | tpccgenerator.cc:272-288 | an order and its lines as the generate functions make them and, for the last ones of a district, its NEW-ORDER row |
| Generator.TPCCGenerator.MakeOrders | tpccgenerator.cc:267-290 | the district is complete |
| Generator.TPCCGenerator.MakeWarehouseWithoutStock | tpccgenerator.cc:243-292 | from a consistent database to a consistent database, for any sizes the constructor allows |
| Generator.TPCCGenerator.LoadAll | tpcc.cc:55-58 | the loaded database meets every condition, holds exactly the asked warehouses, districts, items, stock rows, customers and new orders, a tenth of the customers of a district with bad credit, and every row is as the generate functions make it: names, amounts, carriers, line counts, items, dates |
| Generator.DistrictFills | tpccgenerator.cc:248-291 | after each district exactly customers 1 to n and new orders from the first new one on are there |
| Generator.TPCCGenerator.GenerateItem | tpccgenerator.cc:40-51 | id, and a price in its range |
| Generator.TPCCGenerator.GenerateStock | tpccgenerator.cc:106-122 | ids, a quantity in 10..100, counters at 0 |
| Generator.TPCCGenerator.GenerateWarehouse | tpccgenerator.cc:93-104 | id, initial year-to-date amount, tax and name in range |
| Generator.TPCCGenerator.GenerateDistrict | tpccgenerator.cc:124-137 | ids, initial year-to-date amount, the next order number after the loaded ones |
| Generator.TPCCGenerator.GenerateCustomer | tpccgenerator.cc:139-174 | everything that the function sets: ids, initial amounts and counts, names, for customers 1 to 1000 the last name that reads as the number before theirs and after that one that reads as a number that was drawn, credit as asked |
| Generator.TPCCGenerator.GenerateHistory | tpccgenerator.cc:214-224 | the customer's own district, initial amount and date |
| Generator.TPCCGenerator.GenerateOrder | tpccgenerator.cc:176-191 | ids, a carrier from 1 to 10 exactly if the order is not new, 5 to 15 lines, the date of the load |
| Generator.TPCCGenerator.GenerateOrderLine | tpccgenerator.cc:193-212 | key fields, the own warehouse as supplier, an item from 1 to 100000, quantity 5, and amount and date by whether the order is new |
| Generator.TPCCGenerator.MakeItemsTable | tpccgenerator.cc:67-80 | every item at the position of its id |
| Generator.TPCCGenerator.MakeOrderLines | tpccgenerator.cc:278-283 | lines 1 to o_ol_cnt of the order and no others, each as generateOrderLine makes it |
| Generator.TPCCGenerator.MakeCustomer | tpccgenerator.cc:256-265 | a customer and its history row, and no other customer changes |
| Generator.TPCCGenerator.MakeDistrict | tpccgenerator.cc:248-291 | from complete districts to complete districts with one more |
| Generator.TPCCGenerator.MakeWarehouse | tpccgenerator.cc:238-241 | stock and all other rows of one more warehouse |
| Reachable.LastOrderRight | tpcctables.cc:798-809 | in a consistent database every customer has an order, and its last one in the index has the largest o_id of all orders of that customer |
| Reachable.LastOrderFound | tpcctables.cc:798-809 | in a consistent database the predecessor search in the packed index finds, for every customer, the customer's own order with the largest o_id of all its orders |
| Reachable.AlwaysConsistent | tpcctables.cc:160-620 | every database reached from a consistent one is consistent |
| Reachable.FirstInFirstOut | tpcctables.cc:510-531 | below a district's next order to deliver all orders have a carrier, from it on none has and all are queued |
| Reachable.BufferCanBeApplied | tpcctables.cc:597-620 | in every reachable state what the applyUndo method requires holds, unless one NEW-ORDER row was both inserted and deleted under the buffer |
| Reachable.NewOrderIsOnePass | tpcctables.cc:160-179 | the tables and the quantities that the new-order method leaves are those of one pass over the items |
| Reachable.MethodsCallable | tpcctables.cc:160-570 | in every reachable state the methods of the transactions may be called as long as warehouses are up to 100 and the lines of the district's next order have keys of 32 bits; then all keys of that order fit |
| Reachable.QueuedUndelivered | tpcctables.cc:543-557 | the assertions in delivery that carrier and dates are still unset hold |
| Unchanged.DoKeeps | tpccdb.h:422-511 | no transaction changes which items, warehouses, districts, stock rows and customers there are, or the names of customers, and every line is for an item that was loaded or checked |
| Unchanged.RunKeeps | tpccdb.h:414-511 | nor does any run of transactions, commits and undos |
| Unchanged.StepKeeps | tpccdb.h:414-511 | nor does any step, for the present database and for all those that buffers lead back to |
| StockLaw.OneLineMore | tpcctables.cc:323-335 | one more line raises s_ytd by its quantity and s_order_cnt by 1 in the row that supplies it, s_remote_cnt by 1 if it is for another warehouse, and nothing in any other row |
| StockLaw.OrderCounts | tpcctables.cc:311-336 | after the items of an order, a row's three counters are the sum of the quantities, the number and the number of remote ones of all the lines that it supplies, the new ones included |
| StockLaw.NewOrderCounted | tpcctables.cc:160-179 | a whole new order, in whatever parts, keeps these equations for every stock row |
| StockLaw.NothingOrdered | tpccgenerator.cc:114-116 | with no lines past the load's orders the equations say that the counters are 0 |
| DeliveryLaw.LineTotalIs | tpcctables.cc:550-561 | the loop over the lines of an order adds up the amounts of all its lines 1 to o_ol_cnt, as a sum over a set that knows no order |
| DeliveryLaw.NextTaken | tpcctables.cc:513-528 | what the lookup in the next district finds is the first order of the queue as the delivery found it, or that there was none |
| DeliveryLaw.DeliveryIs | tpcctables.cc:510-570 | a whole delivery: exactly the first order of every district's queue leaves the queue and gets the carrier given, exactly its lines 1 to o_ol_cnt get the date given, every customer's balance grows by the amounts of the lines of its orders taken and c_delivery_cnt by the number of these orders, and nothing else changes |
| Ledger.RecordTold | tpcctables.cc:466-485 | one more payment of a customer: c_ytd_payment by its amount, c_payment_cnt by 1, the record first in the data of bad credit, and all else as it was |
| Ledger.HistoryPushed | tpcctables.cc:430-444 | the row of one more payment follows those before it |
| Ledger.PaymentTold | tpcctables.cc:355-363 | one more payment: w_ytd, d_ytd and c_ytd_payment of exactly its warehouse, district and customer grow by its amount, and its history row has its customer, district, amount, date and the names of warehouse and district |
| Ledger.DeliveryTold | tpcctables.cc:510-570 | one more delivery moves no payments, and of orders and lines changes carriers and dates only |
| Ledger.NewOrderTold | tpcctables.cc:160-179 | one more order takes the next number of its district and is entered as asked: customer, date, line count, whether all is local, and for each item a line with its id, supplier, quantity and quantity times price; no order entered before changes but in carrier and dates |
| Ledger.DoTold | tpcctables.cc:160-570 | every command that is not refused makes of the database what the list of commands with it tells |
| Counters.DeliveryCounted | tpcctables.cc:543-568 | a delivery keeps that c_delivery_cnt is the number of the customer's orders with a carrier, from the load's first new order on |
| Counters.OrderCounted | tpcctables.cc:160-179 | so does a new order, and it keeps the equations of the stock counters |
| Counters.DoCounted | tpcctables.cc:160-570 | every command keeps all counters right |
| Counters.LoadedCounted | tpccgenerator.cc:106-191 | right after the load all counters are right: no line of the load counts for the stock, and no order that the load delivered for a customer |
| Books.UndoBooked | tpcctables.cc:597-620 | applying the newest buffer takes exactly its commands out of force |
| Books.RunTold | tpccdb.h:414-511 | in every state of every run, with shared buffers, undos and commits, the database is what the commands in force tell of the one at the start: sums of payments in w_ytd, d_ytd and c_ytd_payment, one history row for each in order, one order number and one entered order for each new order |
| Books.AcceptedTold | tpccdb.h:414-511 | in a run without undos these are all the commands that were not refused, in order |
| Books.BalanceTold | tpcctables.cc:466-467 | over the run the balance, less what was delivered to the customer, falls by what the customer paid |
| Books.RunCounted | tpcctables.cc:323-335 | in every state of every run after a load s_ytd is the sum of ol_quantity over the lines of orders past the load that the row supplies, s_order_cnt their number, s_remote_cnt the number of those for other warehouses, and c_delivery_cnt is the number of the customer's orders with a carrier, from the load's first new order on |
| SmallLoads.SmallLoad | tpccgenerator.cc:226-293 | one load, row by row, of one item, one warehouse and one district with any numbers of customers and new orders, every row as the generate functions make it |
| SmallLoads.SmallCustomerMade | tpccgenerator.cc:134-176 | its customers are ones that generateCustomer makes |
| LoadedStock.DrawnItemsStocked | tpccgenerator.cc:199-199 | every item that the load can draw has a stock row in every warehouse exactly if all 100000 items were loaded |
| LoadedStock.RedrawnLoaded | tpccgenerator.cc:199-199 | another draw for one line gives another load of the same sizes |
| LoadedStock.MissingRow | tpcctables.cc:80-101 | with fewer items, whatever the other settings and whatever else was drawn, the load that draws item 100000 for the first line of a district's last order leaves that line without its stock row |
| LoadedStock.LoadsStocked | tpcctables.cc:80-101 | the last 20 orders of a district have all their stock rows after every load with these settings if and only if all 100000 items were loaded |
| LoadedStock.RowMissingAfterLoad | tpcctables.cc:80-101 | the load of one item, one warehouse, one district and 20 customers after which stock level dereferences a row that is not there |
| LoadedStock.FullLoadStocked | tpcctables.cc:93-98 | after the full-size load every line has its stock row and every warehouse a row for every item, in every state of every run |
| LoadedStock.StockLevelReady | tpcctables.cc:54-101 | in every state of every run what stock level requires holds, if all items were loaded or the last 20 orders of the district were made since the load |
| LoadedNames.NameOfLoad | tpccgenerator.cc:152-155 | customer k.c <= 1000 of every loaded district has a last name that reads as k.c - 1 |
| LoadedNames.NameFound | tpccclient.cc:46-57 | in every state of every run, every name that the client can draw is that of a customer in every loaded district |
| LoadedNames.FewDiffer | tpcctables.cc:710-710 | with at most 1000 customers in a district no two have the same four fields |
| LoadedNames.RenamedLoaded | tpccgenerator.cc:148-158 | other names that can be drawn for a customer give another load with these settings |
| LoadedNames.TwinsDrawn | tpccgenerator.cc:152-158 | with more than 1000, whatever else was drawn, the load that draws the names of customer 1 for customer 1001 has two customers with the same four fields |
| LoadedNames.NamesDifferExactly | tpcctables.cc:710-710 | no load with these settings has two customers with the same four fields if and only if there are at most 1000 in a district |
| LoadedNames.TwinsAfterLoad | tpcctables.cc:710-710 | a concrete load of 1001 customers in which customers 1 and 1001 have the same four fields |
| LoadedNames.RunDiffers | tpccdb.h:414-511 | no run changes whether two customers have the same four fields |
| Database.LoadDatabase | tpcc.cc:52-59 | the loaded tables, the two trees of the order table and the index by name, all in agreement; the assertion on the index holds every time exactly if no two customers have the same four fields, exactly if every customer is in the index, and always with at most 1000 customers in a district |
| Database.IndexOrders | tpcctables.cc:787-794 | the trees hold exactly the orders of the table, whatever the order of insertion |
| Database.IndexCustomers | tpcctables.cc:708-712 | the index by name stands for every customer of the table, the first of those with equal fields, and the assertion holds every time exactly if there are no equal ones |
| Database.Database.NewOrder | tpcctables.cc:160-179 | the transaction on the tables, with its order in both trees and the index by name still right, for order numbers whose line keys fit 32 bits; prices, amounts and total of the output by field |
| Database.Database.Payment | tpcctables.cc:355-363 | the transaction on the tables, with the customer in the output field by field; trees and index are not touched and still right |
| Database.Database.Delivery | tpcctables.cc:510-570 | likewise, although order rows change |
| Database.Database.EraseFromTrees | tpcctables.cc:605-605 | the inserted orders leave both trees, in any order of the set |
| Database.Database.ApplyUndo | tpcctables.cc:597-620 | applyUndo on the tables, with the trees and the index by name following |
| Database.Database.OrderStatus | tpcctables.cc:118-158 | the output shows the customer, its own order with the largest number as the tree finds it, and every line of that order at its line number: item, supplier, quantity, amount and date |
| Database.Database.FindByName | tpcctables.cc:717-761 | the middle customer of that name, whenever the table has one |
| Database.Database.OrderStatusByName | tpcctables.cc:123-127 | order status of the middle customer of that name |
| Database.Database.PaymentByName | tpcctables.cc:365-373 | the payment by the middle customer of that name, on the tables, the undo buffer and, field by field, the output |
| Database.RowsDelivered | tpcctables.cc:543-548 | a delivery keeps the objects of the order table, their addresses and their identifying fields |
| Database.LoadedFitsKeys | tpccgenerator.cc:13-31 | everything that a load makes fits the packed keys |
| Database.StatusReady | tpcctables.cc:118-140 | in every state of every run order status may be asked for every customer |
| Database.ByNameReady | tpccclient.cc:46-57 | in every state of every run payment and order status may ask for every name that the client can draw, in every loaded district |
| Database.UndoReady | tpcctables.cc:597-620 | in every state of every run the newest buffer may be applied, unless it both inserted and deleted one NEW-ORDER row |

## Left out

- BTree.BPlusTree.constructor: requires M > 1 where the code asserts M > 0, because with M = 1 the half of a split leaf can lack the room that leaf_insert_nonfull asserts (`BTreeRuns.SplitLeavesRoom` says exactly when).
- BTree.BPlusTree.Del: requires that the slot that the search ends at exists, which the unguarded read at btree.h:158 needs; a live key is enough (`BTree.BPlusTree.PresentInBounds`), and `BTree.BPlusTree.OutOfBoundsExactly` says when it does not.
- Tables.TPCCTables.InsertOrder: rows stand under their identifiers, not under packed keys in a tree; `Keys.PackedInsert` and `Keys.PackedErase` relate the two, `OrderStore` does it in full for the order table's indexes, and order numbers whose 32-bit keys overflow are outside the model.
- OrderStore.OrderStore.InsertOrder: requires a key that fits 32 bits, since the wrapped key is not modelled.
- StockLevel.StockLevel: requires more than 20 order numbers, as the assertion in the key function does, and the stock rows of the last 20 orders' lines, which the code dereferences without a check (`LoadedStock`).
- Tables.TPCCTables.InsertCustomer: the index by last name is kept beside the table object, in `Database.Database`; a customer with the four fields of another is left out of it, where the code's assertion fails; `Database.LoadDatabase` tells whether it did, and `LoadedNames.NamesDifferExactly` when it can.
- Database.LoadDatabase: the trees and the index by name are filled after the tables and not row by row with them, the index in the order in which the load makes the customers.
- Database.Database.NewOrder: the order goes into the trees after the tables' own work; requires an order number whose line keys fit 32 bits, where the code wraps.
- Tables.TPCCTables.EraseHistory: states the swap with the last row; that the sequence keeps its order holds for rows erased from the end only, which is what undo newest-first does (`Tables.TPCCTables.EraseHistories`).
- CustomerNames.FindCustomerByName: names are over characters 'A'..'z', at most 16 of them; `CustomerNames.Gap` says exactly what goes wrong otherwise.
- Database.Database.OrderStatus: the middle initials that the code copies to the output are not modelled.
- paymentCombine: copies the customer fields of the remote output (`Tables.PaymentOutput.Combine`), one assignment.
- Addresses, phone and zip numbers, s_dist and ol_dist_info, s_data and i_data, brand_generic, i_name: copied bytes.
- Floating point: amounts are exact, so rounding and the loss of cents in large float sums are not modelled.
- The text of a payment record: a parameter of at most 500 characters.
- NURand, validCRun and the distributions and seeds of the draws: the load uses any value in range; redrawing until a draw is new is drawing any new value, so its termination is not an issue.
- Memory: allocation, alignment, node type tags, destructors and leaks, among them the value that a deleted tree entry leaks. Addresses of rows are numbers that are never handed out twice.
- The debug-only check loop at tpcctables.cc:88-92 and the assertions on dates and carriers in delivery; the conditions that these assertions need are part of `Consistency.Consistent`.
- The client's choice of transactions, clocks, the command line, the test framework and its fixtures.
