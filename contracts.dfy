/**
 * Request and response shapes of the HTTP API, the caller's verified identity
 * and the action results the controllers answer with. None of them has behaviour.
 */
module Contracts {
  import opened Wrappers
  import opened Models

  /** Body of POST /api/inventory. */
  datatype InventoryCreateDto = InventoryCreateDto(name: string, quantity: Int32, location: string)

  /** One element of the inventory listing. */
  datatype InventoryReadDto = InventoryReadDto(itemId: int, name: string, quantity: Int32, location: string)

  /** One line of POST /api/orders; `quantity` defaults to 1. */
  datatype OrderLineDto = OrderLineDto(inventoryItemId: int, quantity: Int32)

  /** The quantity of a line whose request leaves it out. */
  const DefaultLineQuantity: Int32 := 1

  /** A request line that names only its item. */
  function DefaultLine(inventoryItemId: int): OrderLineDto
  {
    OrderLineDto(inventoryItemId, DefaultLineQuantity)
  }

  /** Body of POST /api/orders; `datePlaced` is the optional override. */
  datatype OrderCreateDto = OrderCreateDto(customerName: string, datePlaced: Option<Instant>, items: seq<OrderLineDto>)

  /** An order line as answered, with the item's name looked up at read time. */
  datatype OrderItemReadDto = OrderItemReadDto(inventoryItemId: int, itemName: string, quantity: Int32)

  /** An order as answered. */
  datatype OrderReadDto = OrderReadDto(orderId: int, customerName: string, datePlaced: Instant, items: seq<OrderItemReadDto>)

  /** The verified identity of the caller: only its roles matter here. */
  datatype Caller = Caller(roles: set<string>)

  const ManagerRole := "Manager"

  /** The `[Authorize(Roles = "Manager")]` gate. */
  predicate IsManager(caller: Caller)
  {
    ManagerRole in caller.roles
  }

  /** Whether a listing came from the cache (`X-Cache: HIT`) or from the store (`MISS`). */
  datatype CacheStatus = Hit | Miss

  /** What an action answers with. `ServerError` is an exception that escapes the
      action (the store refusing a write), surfacing as status 500. */
  datatype ActionResult<+T> =
    | Ok(value: T)
    | Created(value: T)
    | NoContent
    | BadRequest(message: string)
    | NotFound
    | Forbidden
    | ServerError
}
