/**
 * The database context: the three tables as maps from key to row, the next key
 * each table hands out, and the relationship rules declared for them:
 * an order owns its lines (deleting the order deletes them), a line refers to an
 * inventory item that may not be deleted while referenced, and (Name, Location)
 * carries a non-unique index, so nothing requires those pairs to be distinct.
 * `SaveChanges` is atomic: a commit either applies every pending row or none.
 */
module Data {
  import opened Wrappers
  import opened Models

  /** The members of `keys` in [lo, hi), ascending. Keys are handed out below the
      table's next key, so walking [1, next) visits every row in key order. */
  function IdsFrom(keys: set<int>, lo: int, hi: int): (r: seq<int>)
    ensures forall i :: 0 <= i < |r| ==> r[i] in keys && lo <= r[i] < hi
    ensures forall i, j :: 0 <= i < j < |r| ==> r[i] < r[j]
    ensures forall k :: k in keys && lo <= k < hi ==> k in r
    decreases hi - lo
  {
    if hi <= lo then []
    else if lo in keys then [lo] + IdsFrom(keys, lo + 1, hi)
    else IdsFrom(keys, lo + 1, hi)
  }

  /** When, within [lo, hi), `keys` holds exactly [a, hi), the walk yields a, a+1, ..., hi-1. */
  lemma {:induction false} IdsFromTail(keys: set<int>, lo: int, a: int, hi: int)
    requires lo <= a <= hi
    requires forall k :: lo <= k < hi ==> (k in keys <==> a <= k)
    ensures var r := IdsFrom(keys, lo, hi); |r| == hi - a && forall i :: 0 <= i < |r| ==> r[i] == a + i
    decreases hi - lo
  {
    if lo == hi {
    } else if lo < a {
      IdsFromTail(keys, lo + 1, a, hi);
    } else {
      IdsFromTail(keys, lo + 1, lo + 1, hi);
    }
  }

  /** Every row is stored under its own key, and keys lie in [1, next). */
  predicate InventoryKeyed(items: map<int, InventoryItem>, next: int)
  {
    forall id :: id in items ==> items[id].itemId == id && 1 <= id < next
  }

  predicate OrdersKeyed(orders: map<int, Order>, next: int)
  {
    forall id :: id in orders ==> orders[id].orderId == id && 1 <= id < next
  }

  predicate OrderItemsKeyed(lines: map<int, OrderItem>, next: int)
  {
    forall id :: id in lines ==> lines[id].orderItemId == id && 1 <= id < next
  }

  /** Foreign key OrderItem.OrderId: every line belongs to a stored order (exactly
      one, since the line holds a single order id). */
  predicate LinesBelongToOrders(lines: map<int, OrderItem>, orders: map<int, Order>)
  {
    forall k :: k in lines ==> lines[k].orderId in orders
  }

  /** Foreign key OrderItem.InventoryItemId: no line refers to a missing item. */
  predicate LinesReferToInventory(lines: map<int, OrderItem>, items: map<int, InventoryItem>)
  {
    forall k :: k in lines ==> lines[k].inventoryItemId in items
  }

  /** Some order line refers to inventory item `itemId`. */
  predicate IsReferenced(lines: map<int, OrderItem>, itemId: int)
  {
    exists k :: k in lines && lines[k].inventoryItemId == itemId
  }

  /** The keys of the lines owned by order `orderId`. */
  function LineIdsOf(lines: map<int, OrderItem>, orderId: int): set<int>
  {
    set k | k in lines && lines[k].orderId == orderId
  }

  /** The rows stored under `ids`, in that order. */
  function RowsAt(lines: map<int, OrderItem>, ids: seq<int>): (r: seq<OrderItem>)
    requires forall i :: 0 <= i < |ids| ==> ids[i] in lines
    ensures |r| == |ids| && forall i :: 0 <= i < |r| ==> r[i] == lines[ids[i]]
  {
    if ids == [] then [] else [lines[ids[0]]] + RowsAt(lines, ids[1..])
  }

  /** `Order.Items` as loaded with the order: its lines in key order. */
  function LinesOf(lines: map<int, OrderItem>, orderId: int, bound: int): (r: seq<OrderItem>)
    ensures forall i :: 0 <= i < |r| ==> r[i].orderId == orderId
  {
    RowsAt(lines, IdsFrom(LineIdsOf(lines, orderId), 1, bound))
  }

  /** Loading an order's `Items` loads all of its lines, each once, in ascending
      line key. */
  lemma LinesOfComplete(lines: map<int, OrderItem>, orderId: int, bound: int)
    requires OrderItemsKeyed(lines, bound)
    ensures var r := LinesOf(lines, orderId, bound);
      && (forall k :: k in lines && lines[k].orderId == orderId ==>
            exists i :: 0 <= i < |r| && r[i] == lines[k])
      && (forall i, j :: 0 <= i < j < |r| ==> r[i].orderItemId < r[j].orderItemId)
  {
    var ids := IdsFrom(LineIdsOf(lines, orderId), 1, bound);
    var r := RowsAt(lines, ids);
    forall k | k in lines && lines[k].orderId == orderId
      ensures exists i :: 0 <= i < |r| && r[i] == lines[k]
    {
      assert k in LineIdsOf(lines, orderId);
      var i :| 0 <= i < |ids| && ids[i] == k;
      assert r[i] == lines[k];
    }
    forall i, j | 0 <= i < j < |r| ensures r[i].orderItemId < r[j].orderItemId {
      assert r[i] == lines[ids[i]] && r[j] == lines[ids[j]];
    }
  }

  /** The rows a commit writes for the pending lines of order `orderId`: the
      i-th pending line gets key `first + i` and the order's key. */
  function CommittedLines(pending: seq<OrderItem>, orderId: int, first: int): (r: map<int, OrderItem>)
    ensures forall k :: k in r <==> first <= k < first + |pending|
    ensures forall k :: k in r ==>
      r[k] == OrderItem(k, orderId, pending[k - first].inventoryItemId, pending[k - first].quantity)
  {
    if pending == [] then map[]
    else
      var n := |pending| - 1;
      CommittedLines(pending[..n], orderId, first)[first + n :=
        OrderItem(first + n, orderId, pending[n].inventoryItemId, pending[n].quantity)]
  }

  /** The Cascade rule: what is left of the lines once order `orderId` is deleted. */
  function CascadeDelete(lines: map<int, OrderItem>, orderId: int): (r: map<int, OrderItem>)
    ensures forall k :: k in r <==> k in lines && lines[k].orderId != orderId
    ensures forall k :: k in r ==> r[k] == lines[k]
  {
    map k | k in lines && lines[k].orderId != orderId :: lines[k]
  }

  /** An order not yet stored owns no lines: a new order starts with an empty
      `Items` list. */
  lemma UnsavedOrderHasNoLines(lines: map<int, OrderItem>, orders: map<int, Order>, orderId: int, bound: int)
    requires LinesBelongToOrders(lines, orders) && orderId !in orders
    ensures LinesOf(lines, orderId, bound) == []
  {
    forall k | 1 <= k < bound
      ensures k !in LineIdsOf(lines, orderId)
    {
      if k in lines { assert lines[k].orderId in orders; }
    }
    if 1 <= bound {
      IdsFromTail(LineIdsOf(lines, orderId), 1, bound, bound);
    }
  }

  /** The keys of the new order's lines, within [1, first + |pending|), are exactly
      the keys the commit handed out. */
  lemma CommittedLineIds(lines: map<int, OrderItem>, orders: map<int, Order>,
                         pending: seq<OrderItem>, orderId: int, first: int, all: map<int, OrderItem>, k: int)
    requires OrderItemsKeyed(lines, first) && LinesBelongToOrders(lines, orders) && orderId !in orders
    requires all == lines + CommittedLines(pending, orderId, first)
    requires 1 <= k < first + |pending|
    ensures k in LineIdsOf(all, orderId) <==> first <= k
  {
    var added := CommittedLines(pending, orderId, first);
    if k < first {
      assert k !in added;
      if k in lines { assert lines[k].orderId in orders; }
    } else {
      assert k in added;
    }
  }

  /** After a commit, walking the new order's line keys visits exactly the keys
      the commit handed out, in ascending order. */
  lemma CommittedWalk(lines: map<int, OrderItem>, orders: map<int, Order>,
                      pending: seq<OrderItem>, orderId: int, first: int, all: map<int, OrderItem>, bound: int)
    requires 1 <= first
    requires OrderItemsKeyed(lines, first) && LinesBelongToOrders(lines, orders) && orderId !in orders
    requires all == lines + CommittedLines(pending, orderId, first) && bound == first + |pending|
    ensures var walk := IdsFrom(LineIdsOf(all, orderId), 1, bound);
            |walk| == |pending| && forall i :: 0 <= i < |walk| ==> walk[i] == first + i
  {
    var ids := LineIdsOf(all, orderId);
    forall k | 1 <= k < bound
      ensures k in ids <==> first <= k
    {
      CommittedLineIds(lines, orders, pending, orderId, first, all, k);
    }
    IdsFromTail(ids, 1, first, bound);
  }

  /** The committed rows read back in key order are the pending lines, each with
      its new key and its order's key. */
  lemma CommittedRows(lines: map<int, OrderItem>, pending: seq<OrderItem>, orderId: int, first: int,
                      all: map<int, OrderItem>, walk: seq<int>)
    requires all == lines + CommittedLines(pending, orderId, first)
    requires |walk| == |pending| && forall i :: 0 <= i < |walk| ==> walk[i] == first + i
    ensures forall i :: 0 <= i < |walk| ==>
              walk[i] in all && all[walk[i]] == OrderItem(first + i, orderId, pending[i].inventoryItemId, pending[i].quantity)
  {
    var added := CommittedLines(pending, orderId, first);
    forall i | 0 <= i < |walk|
      ensures walk[i] in all
      ensures all[walk[i]] == OrderItem(first + i, orderId, pending[i].inventoryItemId, pending[i].quantity)
    {
      assert first + i in added;
    }
  }

  /** After a commit, the lines of the new order are the pending lines, in the
      order they were added, each with its own new key. */
  lemma {:induction false} CommittedLinesInOrder(lines: map<int, OrderItem>, orders: map<int, Order>,
                              pending: seq<OrderItem>, orderId: int, first: int,
                              all: map<int, OrderItem>, bound: int)
    requires 1 <= first
    requires OrderItemsKeyed(lines, first) && LinesBelongToOrders(lines, orders) && orderId !in orders
    requires all == lines + CommittedLines(pending, orderId, first) && bound == first + |pending|
    ensures var r := LinesOf(all, orderId, bound);
            && |r| == |pending|
            && forall i :: 0 <= i < |r| ==>
                 r[i] == OrderItem(first + i, orderId, pending[i].inventoryItemId, pending[i].quantity)
  {
    var walk := IdsFrom(LineIdsOf(all, orderId), 1, bound);
    assert |walk| == |pending| && forall i :: 0 <= i < |walk| ==>
             walk[i] in all && all[walk[i]] == OrderItem(first + i, orderId, pending[i].inventoryItemId, pending[i].quantity) by {
      CommittedWalk(lines, orders, pending, orderId, first, all, bound);
      CommittedRows(lines, pending, orderId, first, all, walk);
    }
    WalkedRows(all, orderId, bound, pending, first);
  }

  /** When the walk over an order's line keys meets, at each step, the row
      built from the matching pending line, the loaded lines are those rows. */
  lemma WalkedRows(all: map<int, OrderItem>, orderId: int, bound: int, pending: seq<OrderItem>, first: int)
    requires var walk := IdsFrom(LineIdsOf(all, orderId), 1, bound);
      && |walk| == |pending|
      && forall i :: 0 <= i < |walk| ==>
           walk[i] in all && all[walk[i]] == OrderItem(first + i, orderId, pending[i].inventoryItemId, pending[i].quantity)
    ensures var r := LinesOf(all, orderId, bound);
            && |r| == |pending|
            && forall i :: 0 <= i < |r| ==>
                 r[i] == OrderItem(first + i, orderId, pending[i].inventoryItemId, pending[i].quantity)
  {
  }

  /** Every row meets the part of its declared constraints that is enforced. */
  predicate TablesEnforced(items: map<int, InventoryItem>, orders: map<int, Order>, lines: map<int, OrderItem>)
  {
    && (forall id :: id in items ==> InventoryItemEnforced(items[id]))
    && (forall id :: id in orders ==> OrderEnforced(orders[id]))
    && (forall id :: id in lines ==> OrderItemEnforced(lines[id]))
  }

  /** Committing a new order under the next order key, with its lines under the
      next line keys, keeps every row under its own key and both foreign keys
      satisfied, provided every line names a stored item. */
  lemma CommitKeepsIntegrity(items: map<int, InventoryItem>, orders: map<int, Order>, lines: map<int, OrderItem>,
                             nextOrderId: int, nextLineId: int, order: Order, pending: seq<OrderItem>,
                             orders': map<int, Order>, lines': map<int, OrderItem>)
    requires 1 <= nextOrderId && 1 <= nextLineId && order.orderId == nextOrderId
    requires OrdersKeyed(orders, nextOrderId) && OrderItemsKeyed(lines, nextLineId)
    requires LinesBelongToOrders(lines, orders) && LinesReferToInventory(lines, items)
    requires forall i :: 0 <= i < |pending| ==> pending[i].inventoryItemId in items
    requires orders' == orders[nextOrderId := order]
    requires lines' == lines + CommittedLines(pending, nextOrderId, nextLineId)
    ensures OrdersKeyed(orders', nextOrderId + 1)
    ensures OrderItemsKeyed(lines', nextLineId + |pending|)
    ensures LinesBelongToOrders(lines', orders')
    ensures LinesReferToInventory(lines', items)
  {
    var added := CommittedLines(pending, nextOrderId, nextLineId);
    forall k | k in lines' ensures lines'[k].inventoryItemId in items {
      if k in added {
        assert added[k].inventoryItemId == pending[k - nextLineId].inventoryItemId;
      }
    }
  }

  /** What a commit establishes, in one statement: the new tables keep their
      keys and foreign keys, and the new order's lines read back as the pending
      lines. */
  lemma CommitFacts(items: map<int, InventoryItem>, orders: map<int, Order>, lines: map<int, OrderItem>,
                    nextOrderId: int, nextLineId: int, order: Order, pending: seq<OrderItem>,
                    orders': map<int, Order>, lines': map<int, OrderItem>, nextOrderId': int, nextLineId': int)
    requires 1 <= nextOrderId && 1 <= nextLineId && order.orderId == nextOrderId
    requires OrdersKeyed(orders, nextOrderId) && OrderItemsKeyed(lines, nextLineId)
    requires LinesBelongToOrders(lines, orders) && LinesReferToInventory(lines, items)
    requires forall i :: 0 <= i < |pending| ==> pending[i].inventoryItemId in items
    requires orders' == orders[nextOrderId := order] && lines' == lines + CommittedLines(pending, nextOrderId, nextLineId)
    requires nextOrderId' == nextOrderId + 1 && nextLineId' == nextLineId + |pending|
    ensures OrdersKeyed(orders', nextOrderId') && OrderItemsKeyed(lines', nextLineId')
    ensures LinesBelongToOrders(lines', orders') && LinesReferToInventory(lines', items)
    ensures var owned := LinesOf(lines', order.orderId, nextLineId');
            && |owned| == |pending|
            && forall i :: 0 <= i < |owned| ==>
                 owned[i].inventoryItemId == pending[i].inventoryItemId && owned[i].quantity == pending[i].quantity
  {
    CommitKeepsIntegrity(items, orders, lines, nextOrderId, nextLineId, order, pending, orders', lines');
    assert nextOrderId !in orders;
    CommittedLinesInOrder(lines, orders, pending, nextOrderId, nextLineId, lines', nextLineId');
  }

  /** Committing an order and its lines, all meeting their enforced
      constraints, keeps every table's constraints met. */
  lemma CommitKeepsEnforced(items: map<int, InventoryItem>, orders: map<int, Order>, lines: map<int, OrderItem>,
                            order: Order, added: map<int, OrderItem>)
    requires OrderEnforced(order)
    requires forall k :: k in added ==> OrderItemEnforced(added[k])
    ensures TablesEnforced(items, orders, lines) ==>
            TablesEnforced(items, orders[order.orderId := order], lines + added)
  {
  }

  /** Inserting a row that meets its enforced constraints keeps them all met. */
  lemma InsertKeepsEnforced(items: map<int, InventoryItem>, orders: map<int, Order>, lines: map<int, OrderItem>,
                            item: InventoryItem)
    requires InventoryItemEnforced(item)
    ensures TablesEnforced(items, orders, lines) ==> TablesEnforced(items[item.itemId := item], orders, lines)
  {
  }

  /** The database context. Each table is a map from key to row; `next...` is the
      key the table hands out on the next insert (keys are never reused). */
  class LogiTrackContext {
    var inventoryItems: map<int, InventoryItem>
    var orders: map<int, Order>
    var orderItems: map<int, OrderItem>
    var nextItemId: int
    var nextOrderId: int
    var nextOrderItemId: int

    /** Keys are consistent and both foreign keys hold. */
    ghost predicate Valid()
      reads this
    {
      && 1 <= nextItemId && 1 <= nextOrderId && 1 <= nextOrderItemId
      && InventoryKeyed(inventoryItems, nextItemId)
      && OrdersKeyed(orders, nextOrderId)
      && OrderItemsKeyed(orderItems, nextOrderItemId)
      && LinesBelongToOrders(orderItems, orders)
      && LinesReferToInventory(orderItems, inventoryItems)
    }

    /** Every row meets the part of its declared constraints that the
        controllers enforce before writing. */
    ghost predicate RowsEnforced()
      reads this
    {
      TablesEnforced(inventoryItems, orders, orderItems)
    }

    /** An empty database. */
    constructor ()
      ensures Valid() && RowsEnforced()
      ensures inventoryItems == map[] && orders == map[] && orderItems == map[]
    {
      inventoryItems, orders, orderItems := map[], map[], map[];
      nextItemId, nextOrderId, nextOrderItemId := 1, 1, 1;
    }

    /** `InventoryItems.Add` then `SaveChanges`: one new row under a fresh key. */
    method AddInventoryItem(name: string, quantity: Int32, location: string) returns (item: InventoryItem)
      requires Valid()
      modifies this
      ensures Valid()
      ensures item.itemId !in old(inventoryItems)
      ensures item == InventoryItem(item.itemId, name, quantity, location)
      ensures inventoryItems == old(inventoryItems)[item.itemId := item]
      ensures orders == old(orders) && orderItems == old(orderItems)
    {
      item := InventoryItem(nextItemId, name, quantity, location);
      inventoryItems := inventoryItems[nextItemId := item];
      nextItemId := nextItemId + 1;
    }

    /** `InventoryItems.Remove` then `SaveChanges`, under the Restrict rule: the
        delete is refused while an order line refers to the item, and then
        nothing changes. */
    method RemoveInventoryItem(id: int) returns (removed: bool)
      requires Valid() && id in inventoryItems
      modifies this
      ensures Valid()
      ensures removed <==> !IsReferenced(orderItems, id)
      ensures !removed ==> unchanged(this)
      ensures removed ==> inventoryItems == old(inventoryItems) - {id}
      ensures orders == old(orders) && orderItems == old(orderItems)
    {
      removed := !IsReferenced(orderItems, id);
      if removed {
        inventoryItems := inventoryItems - {id};
      }
    }

    /** `Orders.Add` of an order with its pending lines, then one `SaveChanges`:
        the header and every line are written together, or, when a line names a
        missing inventory item (the foreign key fails), nothing is written. */
    method AddOrder(customerName: string, datePlaced: Instant, pending: seq<OrderItem>) returns (saved: Option<Order>)
      requires Valid()
      modifies this
      ensures Valid()
      ensures saved.Some? <==> forall i :: 0 <= i < |pending| ==> pending[i].inventoryItemId in inventoryItems
      ensures inventoryItems == old(inventoryItems)
      ensures saved.None? ==> unchanged(this)
      ensures saved.Some? ==>
        var id := saved.value.orderId;
        && id !in old(orders)
        && saved.value == Order(id, customerName, datePlaced)
        && orders == old(orders)[id := saved.value]
        && orderItems == old(orderItems) + CommittedLines(pending, id, old(nextOrderItemId))
        && var lines := LinesOf(orderItems, id, nextOrderItemId);
           && |lines| == |pending|
           && forall i :: 0 <= i < |lines| ==>
                lines[i].inventoryItemId == pending[i].inventoryItemId && lines[i].quantity == pending[i].quantity
    {
      if !forall i :: 0 <= i < |pending| ==> pending[i].inventoryItemId in inventoryItems {
        return None;
      }
      var order := WriteOrder(customerName, datePlaced, pending);
      saved := Some(order);
    }

    /** The writes of a commit whose every line names a stored item: the header
        under the next order key, the lines under the next line keys. */
    method WriteOrder(customerName: string, datePlaced: Instant, pending: seq<OrderItem>) returns (order: Order)
      requires Valid()
      requires forall i :: 0 <= i < |pending| ==> pending[i].inventoryItemId in inventoryItems
      modifies this
      ensures Valid()
      ensures inventoryItems == old(inventoryItems)
      ensures order.orderId !in old(orders) && order == Order(order.orderId, customerName, datePlaced)
      ensures orders == old(orders)[order.orderId := order]
      ensures orderItems == old(orderItems) + CommittedLines(pending, order.orderId, old(nextOrderItemId))
      ensures var lines := LinesOf(orderItems, order.orderId, nextOrderItemId);
              && |lines| == |pending|
              && forall i :: 0 <= i < |lines| ==>
                   lines[i].inventoryItemId == pending[i].inventoryItemId && lines[i].quantity == pending[i].quantity
    {
      order := Order(nextOrderId, customerName, datePlaced);
      orders, orderItems, nextOrderId, nextOrderItemId :=
        orders[nextOrderId := order],
        orderItems + CommittedLines(pending, nextOrderId, nextOrderItemId),
        nextOrderId + 1,
        nextOrderItemId + |pending|;
      assert inventoryItems == old(inventoryItems) && nextItemId == old(nextItemId);
      CommitFacts(inventoryItems, old(orders), old(orderItems), old(nextOrderId), old(nextOrderItemId), order, pending,
                  orders, orderItems, nextOrderId, nextOrderItemId);
    }

    /** `Orders.Remove` then `SaveChanges`, under the Cascade rule: the order and
        every line it owns go, every other line stays. */
    method RemoveOrder(id: int)
      requires Valid() && id in orders
      modifies this
      ensures Valid()
      ensures orders == old(orders) - {id}
      ensures orderItems == CascadeDelete(old(orderItems), id)
      ensures inventoryItems == old(inventoryItems)
    {
      orders := orders - {id};
      orderItems := CascadeDelete(orderItems, id);
    }
  }
}
