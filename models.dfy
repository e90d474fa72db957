/**
 * The persisted entities: inventory items, orders and order lines, with the
 * constraints their declarations carry. `[Required]` on text means not blank
 * (`IsNullOrWhiteSpace` is false). The declared bounds are predicates,
 * not checks: nothing in the system rejects a value that breaks a maximum length.
 */
module Models {
  import opened Text

  /** `int` of the source: a 32-bit signed integer. */
  newtype Int32 = x: int | -0x8000_0000 <= x <= 0x7fff_ffff

  const Int32Max: Int32 := 0x7fff_ffff

  /** Declared maximum lengths (MaxLength attributes). */
  const NameMaxLength := 200
  const LocationMaxLength := 100
  const CustomerNameMaxLength := 200

  /** Instants (`DateTime`) as integer milliseconds on one clock. */
  type Instant = int

  /** An inventory row, keyed by `itemId`. */
  datatype InventoryItem = InventoryItem(itemId: int, name: string, quantity: Int32, location: string)

  /** An order header, keyed by `orderId`. Its `Items` are the order lines whose
      `orderId` is this order's (see `Data.LinesOf`). */
  datatype Order = Order(orderId: int, customerName: string, datePlaced: Instant)

  /** An order line. It names its order and its inventory item by id only: the
      order owns the line, the line merely refers to the item. */
  datatype OrderItem = OrderItem(orderItemId: int, orderId: int, inventoryItemId: int, quantity: Int32)

  /** Required + MaxLength(200) on Name, Range(0, int.MaxValue) on Quantity,
      Required + MaxLength(100) on Location. */
  predicate InventoryItemDeclaredValid(item: InventoryItem)
  {
    && !IsBlank(item.name) && |item.name| <= NameMaxLength
    && 0 <= item.quantity <= Int32Max
    && !IsBlank(item.location) && |item.location| <= LocationMaxLength
  }

  /** Required + MaxLength(200) on CustomerName. */
  predicate OrderDeclaredValid(order: Order)
  {
    !IsBlank(order.customerName) && |order.customerName| <= CustomerNameMaxLength
  }

  /** Range(1, int.MaxValue) on Quantity. */
  predicate OrderItemDeclaredValid(line: OrderItem)
  {
    1 <= line.quantity <= Int32Max
  }

  /** The part of the declarations the controllers enforce on every row they
      write: Required (text that is not blank) and the lower end of each Range. The
      MaxLength bounds are declared only. */
  predicate InventoryItemEnforced(item: InventoryItem)
  {
    !IsBlank(item.name) && !IsBlank(item.location) && 0 <= item.quantity
  }

  predicate OrderEnforced(order: Order)
  {
    !IsBlank(order.customerName)
  }

  /** For a line the enforced part is its whole declared range. */
  predicate OrderItemEnforced(line: OrderItem)
  {
    OrderItemDeclaredValid(line)
  }
}
