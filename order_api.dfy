/**
 * The order endpoints: creation with its ordered validation, the one-unit
 * commit of an order with its lines and the answer built by reading the order
 * back; the listing newest first, the lookup by id, and the manager-only delete.
 * Every answer resolves each line's item name from the inventory as it is when
 * the answer is built.
 */
module OrderApi {
  import opened Wrappers
  import opened Models
  import opened Contracts
  import opened Text
  import opened Data

  /** Why an order request is refused. */
  datatype OrderRefusal = CustomerNameRequired | ItemsRequired | NonPositiveQuantity | UnknownInventoryItems

  /** The text of the 400 answer for each refusal. */
  function RefusalMessage(e: OrderRefusal): string
  {
    match e
    case CustomerNameRequired => "CustomerName is required"
    case ItemsRequired => "At least one item is required"
    case NonPositiveQuantity => "Item quantities must be positive"
    case UnknownInventoryItems => "One or more InventoryItemIds do not exist"
  }

  /** The distinct inventory ids a request names. */
  function RequestedIds(lines: seq<OrderLineDto>): (r: set<int>)
    ensures forall i :: 0 <= i < |lines| ==> lines[i].inventoryItemId in r
    ensures forall id :: id in r ==> exists i :: 0 <= i < |lines| && lines[i].inventoryItemId == id
  {
    set i | 0 <= i < |lines| :: lines[i].inventoryItemId
  }

  /** The existence check counts the inventory rows whose id is requested (ids
      are keys, so that is the size of the intersection) and compares it with the
      number of distinct requested ids. It passes exactly when every requested
      id exists; an id named on several lines is counted once. */
  lemma ExistenceCheckIff(requested: set<int>, inventoryIds: set<int>)
    ensures |inventoryIds * requested| == |requested| <==> requested <= inventoryIds
  {
    assert |requested - inventoryIds| == |requested| - |requested * inventoryIds|;
    assert requested * inventoryIds == inventoryIds * requested;
    if |requested - inventoryIds| == 0 {
      assert requested - inventoryIds == {};
      forall x | x in requested ensures x in inventoryIds {
        assert x !in requested - inventoryIds;
      }
    }
  }

  /** Some line asks for a quantity of zero or less. */
  predicate HasNonPositiveQuantity(lines: seq<OrderLineDto>)
  {
    exists i :: 0 <= i < |lines| && lines[i].quantity <= 0
  }

  /** The refusal of an order request, the checks taken in this order: customer
      name, item list, quantities, existence of the named items (one counting
      query). `None` when it is accepted. */
  function CreateError(dto: OrderCreateDto, inventoryIds: set<int>): (r: Option<OrderRefusal>)
    ensures r == Some(CustomerNameRequired) <==> IsBlank(dto.customerName)
    ensures r == Some(ItemsRequired) <==> !IsBlank(dto.customerName) && dto.items == []
    ensures r == Some(NonPositiveQuantity) <==>
              !IsBlank(dto.customerName) && dto.items != [] && HasNonPositiveQuantity(dto.items)
    ensures r == Some(UnknownInventoryItems) <==>
              && !IsBlank(dto.customerName) && dto.items != [] && !HasNonPositiveQuantity(dto.items)
              && exists i :: 0 <= i < |dto.items| && dto.items[i].inventoryItemId !in inventoryIds
    ensures r == None <==>
              && !IsBlank(dto.customerName) && dto.items != []
              && forall i :: 0 <= i < |dto.items| ==>
                   0 < dto.items[i].quantity && dto.items[i].inventoryItemId in inventoryIds
  {
    var requested := RequestedIds(dto.items);
    ExistenceCheckIff(requested, inventoryIds);
    if IsBlank(dto.customerName) then Some(CustomerNameRequired)
    else if dto.items == [] then Some(ItemsRequired)
    else if HasNonPositiveQuantity(dto.items) then Some(NonPositiveQuantity)
    else if |inventoryIds * requested| != |requested| then Some(UnknownInventoryItems)
    else None
  }

  /** `DatePlaced ?? DateTime.UtcNow`: the caller's instant if given, else now. */
  function PlacedAt(datePlaced: Option<Instant>, now: Instant): Instant
  {
    if datePlaced.Some? then datePlaced.value else now
  }

  /** A stored line as answered, its item's name looked up in `items`. */
  function ToItemReadDto(line: OrderItem, items: map<int, InventoryItem>): OrderItemReadDto
    requires line.inventoryItemId in items
  {
    OrderItemReadDto(line.inventoryItemId, items[line.inventoryItemId].name, line.quantity)
  }

  /** Lines as answered, in their order; ids and quantities are copied and each
      name is the current name of the referenced item. */
  function ProjectLines(lines: seq<OrderItem>, items: map<int, InventoryItem>): (r: seq<OrderItemReadDto>)
    requires forall i :: 0 <= i < |lines| ==> lines[i].inventoryItemId in items
    ensures |r| == |lines|
    ensures forall i :: 0 <= i < |r| ==>
      && r[i].inventoryItemId == lines[i].inventoryItemId
      && r[i].itemName == items[lines[i].inventoryItemId].name
      && r[i].quantity == lines[i].quantity
  {
    if lines == [] then [] else [ToItemReadDto(lines[0], items)] + ProjectLines(lines[1..], items)
  }

  /** The lines of a stored order all refer to stored items. */
  lemma LinesOfResolve(lines: map<int, OrderItem>, items: map<int, InventoryItem>, orderId: int, bound: int)
    requires LinesReferToInventory(lines, items)
    ensures forall i :: 0 <= i < |LinesOf(lines, orderId, bound)| ==> LinesOf(lines, orderId, bound)[i].inventoryItemId in items
  {
    var ids := IdsFrom(LineIdsOf(lines, orderId), 1, bound);
    var r := RowsAt(lines, ids);
    assert r == LinesOf(lines, orderId, bound);
    forall i | 0 <= i < |r| ensures r[i].inventoryItemId in items {
      assert r[i] == lines[ids[i]];
    }
  }

  /** A stored order as answered: its header copied, its lines in key order. */
  function ProjectOrder(order: Order, lines: map<int, OrderItem>, nextOrderItemId: int,
                        items: map<int, InventoryItem>): (r: OrderReadDto)
    requires LinesReferToInventory(lines, items)
    ensures r.orderId == order.orderId && r.customerName == order.customerName
    ensures r.datePlaced == order.datePlaced
    ensures var owned := LinesOf(lines, order.orderId, nextOrderItemId);
            && |r.items| == |owned|
            && forall i :: 0 <= i < |r.items| ==>
                 && r.items[i].inventoryItemId == owned[i].inventoryItemId
                 && owned[i].inventoryItemId in items
                 && r.items[i].itemName == items[owned[i].inventoryItemId].name
                 && r.items[i].quantity == owned[i].quantity
  {
    var owned := LinesOf(lines, order.orderId, nextOrderItemId);
    LinesOfResolve(lines, items, order.orderId, nextOrderItemId);
    OrderReadDto(order.orderId, order.customerName, order.datePlaced, ProjectLines(owned, items))
  }

  /** The stored orders under `ids`, answered, in that order. */
  function ProjectOrders(ids: seq<int>, orders: map<int, Order>, lines: map<int, OrderItem>,
                         nextOrderItemId: int, items: map<int, InventoryItem>): (r: seq<OrderReadDto>)
    requires forall i :: 0 <= i < |ids| ==> ids[i] in orders
    requires LinesReferToInventory(lines, items)
    ensures |r| == |ids|
    ensures forall i :: 0 <= i < |r| ==> r[i] == ProjectOrder(orders[ids[i]], lines, nextOrderItemId, items)
  {
    if ids == [] then []
    else [ProjectOrder(orders[ids[0]], lines, nextOrderItemId, items)]
         + ProjectOrders(ids[1..], orders, lines, nextOrderItemId, items)
  }

  /** Placement instants never increase along `s`. */
  predicate NewestFirst(s: seq<OrderReadDto>)
  {
    forall i, j :: 0 <= i < j < |s| ==> s[i].datePlaced >= s[j].datePlaced
  }

  /** Inserts `o` into a newest-first sequence, keeping it newest first. */
  function InsertByDate(o: OrderReadDto, s: seq<OrderReadDto>): (r: seq<OrderReadDto>)
    requires NewestFirst(s)
    ensures NewestFirst(r)
    ensures multiset(r) == multiset(s) + multiset{o}
    ensures |r| == |s| + 1
    ensures r[0] == o || (s != [] && r[0] == s[0])
  {
    if s == [] || o.datePlaced >= s[0].datePlaced then
      [o] + s
    else
      var rest := InsertByDate(o, s[1..]);
      assert s == [s[0]] + s[1..];
      assert rest[0].datePlaced <= s[0].datePlaced;
      [s[0]] + rest
  }

  /** `OrderByDescending(DatePlaced)`: a newest-first rearrangement of `s`. No
      order among equal instants is promised. */
  function SortNewestFirst(s: seq<OrderReadDto>): (r: seq<OrderReadDto>)
    ensures NewestFirst(r)
    ensures multiset(r) == multiset(s)
  {
    if s == [] then []
    else
      assert s == [s[0]] + s[1..];
      InsertByDate(s[0], SortNewestFirst(s[1..]))
  }

  /** Deleting an order leaves it no lines. */
  lemma CascadeLeavesNoLines(lines: map<int, OrderItem>, orderId: int, bound: int)
    ensures LinesOf(CascadeDelete(lines, orderId), orderId, bound) == []
  {
    assert LineIdsOf(CascadeDelete(lines, orderId), orderId) == {};
    if 1 <= bound {
      IdsFromTail({}, 1, bound, bound);
    }
  }

  /** Deleting an order leaves every other order's lines as they were. */
  lemma CascadeKeepsOtherOrders(lines: map<int, OrderItem>, orderId: int, other: int, bound: int)
    requires other != orderId
    ensures LinesOf(CascadeDelete(lines, orderId), other, bound) == LinesOf(lines, other, bound)
  {
    var kept := CascadeDelete(lines, orderId);
    assert LineIdsOf(kept, other) == LineIdsOf(lines, other);
    var ids := IdsFrom(LineIdsOf(lines, other), 1, bound);
    var a, b := RowsAt(kept, ids), RowsAt(lines, ids);
    assert forall i :: 0 <= i < |ids| ==> a[i] == b[i];
  }

  /** The lines the controller builds for a request, one per request line in
      order, each with the requested item and quantity; ids are left to the store. */
  function PendingLines(request: seq<OrderLineDto>): (r: seq<OrderItem>)
    ensures |r| == |request|
    ensures forall i :: 0 <= i < |r| ==>
      r[i] == OrderItem(0, 0, request[i].inventoryItemId, request[i].quantity)
  {
    if request == [] then []
    else [OrderItem(0, 0, request[0].inventoryItemId, request[0].quantity)] + PendingLines(request[1..])
  }

  /** Once the lines of an order match the request one by one, the answer for
      that order lists the request's items in request order with their names. */
  lemma CreatedAnswer(order: Order, lines: map<int, OrderItem>, bound: int,
                      items: map<int, InventoryItem>, pending: seq<OrderItem>, request: seq<OrderLineDto>)
    requires LinesReferToInventory(lines, items)
    requires pending == PendingLines(request)
    requires var owned := LinesOf(lines, order.orderId, bound);
             && |owned| == |pending|
             && forall i :: 0 <= i < |owned| ==>
                  owned[i].inventoryItemId == pending[i].inventoryItemId && owned[i].quantity == pending[i].quantity
    ensures var r := ProjectOrder(order, lines, bound, items);
            && |r.items| == |request|
            && forall i :: 0 <= i < |request| ==>
                 && request[i].inventoryItemId in items
                 && r.items[i] == OrderItemReadDto(request[i].inventoryItemId,
                                                   items[request[i].inventoryItemId].name, request[i].quantity)
  {
  }

  /** An order saved under an accepted (non-blank) customer name meets its
      enforced constraint: the trimmed name is not empty. */
  lemma AcceptedOrderEnforced(customerName: string, orderId: int, datePlaced: Instant)
    requires !IsBlank(customerName)
    ensures OrderEnforced(Order(orderId, Trim(customerName), datePlaced))
  {
    TrimEmptyIffBlank(customerName);
    TrimIdempotent(customerName);
    TrimEmptyIffBlank(Trim(customerName));
  }

  /** Lines that leave their quantity at its default never trip the quantity
      check: such a request is refused only for its name, an empty list or an
      unknown item. */
  lemma DefaultLinesPassQuantityCheck(dto: OrderCreateDto, inventoryIds: set<int>)
    requires forall i :: 0 <= i < |dto.items| ==> dto.items[i] == DefaultLine(dto.items[i].inventoryItemId)
    ensures CreateError(dto, inventoryIds) != Some(NonPositiveQuantity)
    ensures CreateError(dto, inventoryIds) == None <==>
              && !IsBlank(dto.customerName) && dto.items != []
              && forall i :: 0 <= i < |dto.items| ==> dto.items[i].inventoryItemId in inventoryIds
  {
    assert !HasNonPositiveQuantity(dto.items);
  }

  /** The declared MaxLength(200) of the customer name is not checked: a request
      whose name is 201 letters long is accepted, and the header it stores breaks
      the declaration while meeting what is enforced. */
  lemma LongCustomerNameAccepted()
    ensures var name := seq(CustomerNameMaxLength + 1, _ => 'x');
      && CreateError(OrderCreateDto(name, None, [DefaultLine(1)]), {1}) == None
      && !OrderDeclaredValid(Order(1, Trim(name), 0))
      && OrderEnforced(Order(1, Trim(name), 0))
  {
    var name := seq(CustomerNameMaxLength + 1, _ => 'x');
    assert !IsWhiteSpace(name[0]);
    assert TrimStart(name) == name;
    assert TrimEnd(name) == name;
  }

  /** Every line of an accepted request has a positive quantity, so the lines
      committed for it keep the declared range. */
  lemma AcceptedLinesEnforced(request: seq<OrderLineDto>, orderId: int, first: int)
    requires forall i :: 0 <= i < |request| ==> 0 < request[i].quantity
    ensures forall k :: k in CommittedLines(PendingLines(request), orderId, first) ==>
              OrderItemEnforced(CommittedLines(PendingLines(request), orderId, first)[k])
  {
    var pending := PendingLines(request);
    var added := CommittedLines(pending, orderId, first);
    forall k | k in added ensures OrderItemEnforced(added[k]) {
      var i := k - first;
      assert 0 <= i < |pending|;
      assert added[k].quantity == pending[i].quantity;
      assert pending[i].quantity == request[i].quantity;
    }
  }

  /** The order endpoints over the shared database context. */
  class OrderController {
    const context: LogiTrackContext

    constructor (context: LogiTrackContext)
      ensures this.context == context
    {
      this.context := context;
    }

    /** A stored order as the endpoints answer it, read from the context now. */
    ghost function Answer(id: int): OrderReadDto
      reads this, context
      requires context.Valid() && id in context.orders
    {
      ProjectOrder(context.orders[id], context.orderItems, context.nextOrderItemId, context.inventoryItems)
    }

    /** GET /api/orders: every stored order exactly once, answered, newest first. */
    method GetAll() returns (r: seq<OrderReadDto>)
      requires context.Valid()
      ensures NewestFirst(r)
      ensures multiset(r) == multiset(ProjectOrders(IdsFrom(context.orders.Keys, 1, context.nextOrderId),
                                                    context.orders, context.orderItems,
                                                    context.nextOrderItemId, context.inventoryItems))
      ensures forall i :: 0 <= i < |r| ==> r[i].orderId in context.orders && r[i] == Answer(r[i].orderId)
      ensures forall id :: id in context.orders ==> exists i :: 0 <= i < |r| && r[i].orderId == id
    {
      var ids := IdsFrom(context.orders.Keys, 1, context.nextOrderId);
      var all := ProjectOrders(ids, context.orders, context.orderItems, context.nextOrderItemId, context.inventoryItems);
      r := SortNewestFirst(all);
      forall i | 0 <= i < |r|
        ensures r[i].orderId in context.orders && r[i] == Answer(r[i].orderId)
      {
        assert r[i] in multiset(all);
        var k :| 0 <= k < |all| && all[k] == r[i];
        assert ids[k] in context.orders;
      }
      forall id | id in context.orders
        ensures exists i :: 0 <= i < |r| && r[i].orderId == id
      {
        var k :| 0 <= k < |ids| && ids[k] == id;
        assert all[k] in multiset(r);
        var i :| 0 <= i < |r| && r[i] == all[k];
      }
    }

    /** GET /api/orders/{id}: the stored order answered, or NotFound. */
    method GetById(id: int) returns (r: ActionResult<OrderReadDto>)
      requires context.Valid()
      ensures id !in context.orders ==> r == NotFound
      ensures id in context.orders ==> r == Ok(Answer(id))
    {
      if id !in context.orders {
        return NotFound;
      }
      r := Ok(ProjectOrder(context.orders[id], context.orderItems, context.nextOrderItemId, context.inventoryItems));
    }

    /** POST /api/orders. A refused request gets its 400 answer and changes
        nothing; an accepted one is committed. */
    method Create(dto: OrderCreateDto, now: Instant) returns (r: ActionResult<OrderReadDto>)
      requires context.Valid()
      modifies context
      ensures context.Valid()
      ensures context.inventoryItems == old(context.inventoryItems)
      ensures CreateError(dto, old(context.inventoryItems).Keys).Some? ==>
        && r == BadRequest(RefusalMessage(CreateError(dto, old(context.inventoryItems).Keys).value))
        && unchanged(context)
      ensures r.Created? <==> CreateError(dto, old(context.inventoryItems).Keys).None?
      ensures r.Created? ==> r.value.orderId !in old(context.orders) && Committed(dto, now, r.value)
      ensures old(context.RowsEnforced()) ==> context.RowsEnforced()
    {
      var error := CreateError(dto, context.inventoryItems.Keys);
      if error.Some? {
        return BadRequest(RefusalMessage(error.value));
      }
      var answer := Commit(dto, now);
      assert old(context.RowsEnforced()) ==> context.RowsEnforced() by {
        AcceptedOrderEnforced(dto.customerName, answer.orderId, PlacedAt(dto.datePlaced, now));
        AcceptedLinesEnforced(dto.items, answer.orderId, old(context.nextOrderItemId));
        CommitKeepsEnforced(context.inventoryItems, old(context.orders), old(context.orderItems),
                            Order(answer.orderId, Trim(dto.customerName), PlacedAt(dto.datePlaced, now)),
                            CommittedLines(PendingLines(dto.items), answer.orderId, old(context.nextOrderItemId)));
      }
      r := Created(answer);
    }

    /** What the store holds and the answer reads after `dto` was committed at
        `now` as the order `answer.orderId`, told against the state before. */
    twostate predicate Committed(dto: OrderCreateDto, now: Instant, answer: OrderReadDto)
      reads this, context
    {
      var id := answer.orderId;
      && context.Valid()
      && context.orders == old(context.orders)[id := Order(id, Trim(dto.customerName), PlacedAt(dto.datePlaced, now))]
      && context.orderItems == old(context.orderItems) + CommittedLines(PendingLines(dto.items), id, old(context.nextOrderItemId))
      && id in context.orders
      && answer == Answer(id)
      && answer.customerName == Trim(dto.customerName)
      && answer.datePlaced == PlacedAt(dto.datePlaced, now)
      && |answer.items| == |dto.items|
      && forall i :: 0 <= i < |dto.items| ==>
           && dto.items[i].inventoryItemId in context.inventoryItems
           && answer.items[i] == OrderItemReadDto(dto.items[i].inventoryItemId,
                                                  context.inventoryItems[dto.items[i].inventoryItemId].name,
                                                  dto.items[i].quantity)
    }

    /** The accepted path of POST /api/orders: builds one line per request line,
        saves the order with its lines as one unit (the existence check already
        passed, so the save cannot be refused) and reads the order back. */
    method Commit(dto: OrderCreateDto, now: Instant) returns (answer: OrderReadDto)
      requires context.Valid()
      requires forall i :: 0 <= i < |dto.items| ==> dto.items[i].inventoryItemId in context.inventoryItems
      modifies context
      ensures context.Valid()
      ensures context.inventoryItems == old(context.inventoryItems)
      ensures answer.orderId !in old(context.orders)
      ensures Committed(dto, now, answer)
    {
      var pending := BuildLines(dto.items);
      var saved := context.AddOrder(Trim(dto.customerName), PlacedAt(dto.datePlaced, now), pending);
      assert saved.Some?;
      var order := saved.value;
      CreatedAnswer(order, context.orderItems, context.nextOrderItemId, context.inventoryItems, pending, dto.items);
      answer := ProjectOrder(order, context.orderItems, context.nextOrderItemId, context.inventoryItems);
    }

    /** The `foreach` over the request lines: one unsaved line per request
        line, in request order, carrying its item id and quantity. */
    static method BuildLines(request: seq<OrderLineDto>) returns (pending: seq<OrderItem>)
      ensures pending == PendingLines(request)
    {
      pending := [];
      for i := 0 to |request|
        invariant |pending| == i
        invariant forall k :: 0 <= k < i ==>
          pending[k] == OrderItem(0, 0, request[k].inventoryItemId, request[k].quantity)
      {
        pending := pending + [OrderItem(0, 0, request[i].inventoryItemId, request[i].quantity)];
      }
    }

    /** DELETE /api/orders/{id} (managers only): the order and, by cascade, its
        lines; NotFound for an absent id. */
    method Delete(caller: Caller, id: int) returns (r: ActionResult<()>)
      requires context.Valid()
      modifies context
      ensures context.Valid()
      ensures !IsManager(caller) ==> r == Forbidden
      ensures IsManager(caller) && id !in old(context.orders) ==> r == NotFound
      ensures r == NoContent <==> IsManager(caller) && id in old(context.orders)
      ensures r != NoContent ==> unchanged(context)
      ensures r == NoContent ==>
        && context.orders == old(context.orders) - {id}
        && context.orderItems == CascadeDelete(old(context.orderItems), id)
        && context.inventoryItems == old(context.inventoryItems)
      ensures old(context.RowsEnforced()) ==> context.RowsEnforced()
    {
      if !IsManager(caller) {
        return Forbidden;
      }
      if id !in context.orders {
        return NotFound;
      }
      context.RemoveOrder(id);
      r := NoContent;
    }
  }
}
