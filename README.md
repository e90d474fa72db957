# LogiTrack: inventory cache and order pipeline, modelled in Dafny

LogiTrack is a small ASP.NET Core service for a warehouse. It keeps inventory
items, customer orders and order lines in one database, behind two controllers.

- **Inventory controller.** Lists the inventory through an in-memory
  read-through cache under the one key `"inventory:list"`. A cached listing has
  an absolute lifetime of 30 seconds. Managers can add an item (the request is
  validated and its text trimmed) and delete an item. After each successful
  write the cached listing is dropped.
- **Order controller.** Validates an order request in a fixed order:
  customer name, item list, quantities, existence of the named items (one
  counting query over the distinct ids). It builds one line per request line
  and saves the order with its lines as one unit. It answers with the order
  read back, each line's item name resolved from the inventory. It also lists
  orders newest first, looks one up by id, and lets managers delete one.
- **Database context.** Declares the relationship rules. An order owns its
  lines (deleting it deletes them). A line refers to an inventory item, which
  may not be deleted while referenced. (Name, Location) carries a
  non-unique index.

The model is sequential: one request at a time, with the clock read once per
request and passed in as `now` (integer milliseconds).

Files, one module each:

- `wrappers.dfy` (`Wrappers`): `Option`.
- `text.dfy` (`Text`): .NET `char.IsWhiteSpace`, `string.IsNullOrWhiteSpace`
  and `string.Trim()`.
- `models.dfy` (`Models`): the three entities, 32-bit `int` quantities, and
  the declared constraints next to the part the controllers enforce.
- `contracts.dfy` (`Contracts`): request and response shapes, the caller's
  roles, and the HTTP outcomes.
- `data.dfy` (`Data`): the database context as a class holding the three
  tables as maps plus the next key of each table. Its methods are the commits
  the controllers make; cascade, restrict and atomicity are stated in their
  contracts.
- `caching.dfy` (`Caching`): the memory cache as a class holding a map from
  key to (value, absolute expiry).
- `inventory_api.dfy` (`InventoryApi`) and `order_api.dfy` (`OrderApi`): the
  two controllers as classes over the shared context (and cache), plus the
  pure validation, projection and ordering functions they use.

The central invariant is **cache coherence** (`InventoryApi.CacheCoherent`).
Whenever the cache holds an entry under `"inventory:list"`, live or expired,
its value is the id-ordered listing of the current inventory.

- `Get` establishes it on a miss and keeps it on a hit.
- `Create` and `Delete` keep it, because every successful write drops the
  entry and a refused write touches neither the store nor the cache.
- Order operations never touch the inventory or the cache (their contracts
  say `context.inventoryItems == old(context.inventoryItems)`).

With `ListingUnique` (a listing of an inventory is unique), a live entry is
exactly `ListInventory` of the current store (`LiveEntryIsCurrentListing`).

## Model

| member | source | states |
|---|---|---|
| `InventoryApi.InventoryController.constructor` | Controllers/InventoryController.cs:20-24 | The controller holds the shared context and the shared cache it was given. |
| `InventoryApi.InventoryController.Get` | Controllers/InventoryController.cs:28-59 | HIT exactly when a live entry exists; a hit returns the cached value and leaves the cache as it was. A miss returns the id-ordered listing of the store and caches exactly that list with expiry `now + 30000`. Under coherence the result is always the current listing, and coherence holds afterwards. |
| `InventoryApi.ListInventory` | Controllers/InventoryController.cs:40-50 | The listing query returns every stored item exactly once, projected to (ItemId, Name, Quantity, Location), in strictly ascending id order (`IsListingOf`). |
| `InventoryApi.ProjectedIdsListing` | Controllers/InventoryController.cs:40-50 | Projecting the rows under a strictly increasing key sequence that names every stored item yields the listing. |
| `InventoryApi.ListingUnique` | Controllers/InventoryController.cs:40-50 | Two id-ordered listings of the same inventory are equal, so "the listing" is well defined. |
| `InventoryApi.ListingEmptyIff` | Controllers/InventoryController.cs:40-50 | A listing is empty exactly when the inventory is empty. |
| `InventoryApi.RestIsListing` | Controllers/InventoryController.cs:40-50 | The tail of a listing is the listing of the inventory without its smallest id. |
| `InventoryApi.ToReadDto` | Controllers/InventoryController.cs:86-92 | The read shape copies ItemId, Name, Quantity and Location unchanged. |
| `InventoryApi.LiveEntryIsCurrentListing` | Controllers/InventoryController.cs:32-54 | Under coherence, a live cached listing equals the listing the store would produce now. |
| `InventoryApi.ExpiresAfterTtl` | Controllers/InventoryController.cs:52-54 | The entry a miss writes at `t`, with expiry `t + 30000`, is not live at any instant at or after `t + 30000`. |
| `InventoryApi.RefusalMessage` | Controllers/InventoryController.cs:67-72 | The 400 texts: "Name is required", "Location is required", "Quantity cannot be negative". |
| `InventoryApi.NewItem` | Controllers/InventoryController.cs:74-79 | The row an accepted request becomes: trimmed name, quantity as given, trimmed location. |
| `InventoryApi.CreateError` | Controllers/InventoryController.cs:67-72 | Refusals in source order: blank name, then blank location, then negative quantity. `None` exactly when all three checks pass. |
| `InventoryApi.LongNameAccepted` | Models/InventoryItem.cs:10-12 | The declared MaxLength(200) on Name is not checked: a request with a 201-letter name is accepted, and the row it stores breaks the declaration while meeting the enforced constraints. |
| `InventoryApi.AcceptedItemEnforced` | Controllers/InventoryController.cs:67-79 | An accepted request yields a row whose trimmed name and location are not blank and a non-negative quantity; the stored text is a fixed point of `Trim`. |
| `InventoryApi.InventoryController.Create` | Controllers/InventoryController.cs:64-93 | Forbidden without the Manager role; otherwise the ordered 400 answers; every refusal leaves store and cache unchanged. On success exactly one row `NewItem(dto, id)` is added under a fresh id, orders and lines are untouched, the answer is its read shape, and the cache key is removed. Enforced constraints and coherence are preserved. |
| `InventoryApi.InventoryController.Delete` | Controllers/InventoryController.cs:98-108 | Forbidden without the role, NotFound for an absent id, a server error (store and cache unchanged) when an order line still references the item. NoContent exactly otherwise: that row alone is removed and the cache key dropped. Enforced constraints and coherence are preserved. |
| `Caching.IsLive` | Controllers/InventoryController.cs:32 | MemoryCache's absolute-expiration rule: an entry is served while `now < expiry`, and counts as expired from `expiry` on. |
| `Caching.MemoryCache.TryGetValue` | Controllers/InventoryController.cs:32 | Found exactly when the entry is live, returning its value unchanged. An expired entry is evicted on access. |
| `Caching.MemoryCache.Set` | Controllers/InventoryController.cs:52-54 | The key now maps to the value with the given absolute expiry; other keys unchanged. |
| `Caching.MemoryCache.Remove` | Controllers/InventoryController.cs:84 | The key is gone; other keys unchanged. |
| `Text.IsWhiteSpace` | Controllers/InventoryController.cs:67-78 | The characters `char.IsWhiteSpace` accepts, which both `IsNullOrWhiteSpace` and `Trim` rely on: U+0009–U+000D, U+0020, U+0085, U+00A0, U+1680, U+2000–U+200A, U+2028, U+2029, U+202F, U+205F and U+3000. |
| `Text.IsBlank` | Controllers/InventoryController.cs:67-70 | `string.IsNullOrWhiteSpace`: every character is white space, so the empty string is blank. `null` goes down the same branch. |
| `Text.Trim` | Controllers/InventoryController.cs:76-78 | The result is no longer than the input and neither starts nor ends with white space. |
| `Text.TrimIsSlice` | Controllers/InventoryController.cs:76-78 | `Trim` keeps one contiguous slice of its input and drops only white space on either side. |
| `Text.TrimEmptyIffBlank` | Controllers/InventoryController.cs:67-70 | `Trim(s)` is empty exactly when `IsNullOrWhiteSpace(s)`, which is why accepted names and locations stay not blank after trimming. |
| `Text.TrimIdempotent` | Controllers/InventoryController.cs:76-78 | Trimming a trimmed string changes nothing. |
| `OrderApi.RefusalMessage` | Controllers/OrderController.cs:84-98 | The 400 texts: "CustomerName is required", "At least one item is required", "Item quantities must be positive", "One or more InventoryItemIds do not exist". |
| `OrderApi.HasNonPositiveQuantity` | Controllers/OrderController.cs:88 | `Items.Any(i => i.Quantity <= 0)`: some line asks for zero or less. |
| `OrderApi.PlacedAt` | Controllers/OrderController.cs:103 | `DatePlaced ?? DateTime.UtcNow`: the caller's instant when given, otherwise the request's `now`. |
| `OrderApi.OrderController.constructor` | Controllers/OrderController.cs:18-21 | The controller holds the shared context it was given. |
| `OrderApi.CreateError` | Controllers/OrderController.cs:84-98 | Refusals in source order: blank customer name, empty item list, some quantity ≤ 0, some named item missing. The last is decided by the source's count comparison, and each is stated as its own if-and-only-if. `None` exactly when the name is not blank, the list is non-empty, and every line has a positive quantity and names a stored item. |
| `OrderApi.RequestedIds` | Controllers/OrderController.cs:92 | The distinct ids are exactly the ids named on some line. |
| `OrderApi.ExistenceCheckIff` | Controllers/OrderController.cs:92-97 | The count of stored rows among the distinct requested ids equals the number of distinct ids exactly when every requested id exists. Ids repeated across lines are counted once and cause no refusal. |
| `OrderApi.PendingLines` | Controllers/OrderController.cs:107-114 | One unsaved line per request line, in request order, with the same item id and quantity. |
| `OrderApi.OrderController.BuildLines` | Controllers/OrderController.cs:106-114 | The `foreach` loop builds exactly `PendingLines(request)`. |
| `Data.LogiTrackContext.AddOrder` | Controllers/OrderController.cs:116-117 | Atomic commit. It succeeds exactly when every line names a stored item, and otherwise changes nothing. On success there is one new order under a fresh key and its lines under consecutive fresh keys; no other row and no inventory row changes. Reading the order's lines back gives the pending lines in order. |
| `Data.LogiTrackContext.WriteOrder` | Controllers/OrderController.cs:116-117 | The writes of an accepted commit: the header under the next order key, the lines under the next line keys, inventory unchanged, the invariants kept, and the lines reading back as the pending lines. |
| `Data.CommitFacts` | Controllers/OrderController.cs:116-124 | For the tables a commit produces: keys and both foreign keys stay valid, and the new order's lines read back as the pending lines. |
| `Data.CommittedLines` | Controllers/OrderController.cs:116-117 | The rows a commit writes: pending line `i` gets key `first + i` and the new order's key. |
| `Data.CommittedLinesInOrder` | Controllers/OrderController.cs:116-124 | After a commit, the new order's lines, read in key order, are the pending lines with their new keys. |
| `Data.CommitKeepsIntegrity` | Data/LogiTrackContext.cs:24-34 | A commit keeps every row under its own key and both foreign keys satisfied. |
| `Data.UnsavedOrderHasNoLines` | Models/Order.cs:19 | An order not yet stored owns no lines: a new order starts with an empty `Items` list. |
| `OrderApi.ToItemReadDto` | Controllers/OrderController.cs:70-75 | One stored line as answered: its item id and quantity, and the referenced item's current name. |
| `OrderApi.ProjectLines` | Controllers/OrderController.cs:70-75 | Lines as answered, in their order. Item id and quantity are copied, and each name is the current name of the referenced item. |
| `OrderApi.ProjectOrder` | Controllers/OrderController.cs:65-76 | A stored order as answered: OrderId, CustomerName and DatePlaced copied, and one item per owned line in key order with the item's current name. |
| `OrderApi.ProjectOrders` | Controllers/OrderController.cs:34-45 | The orders under a key sequence, each projected, in that order. |
| `OrderApi.InsertByDate` | Controllers/OrderController.cs:33 | Inserting into a newest-first sequence keeps it newest first and adds exactly that one element (multiset). |
| `OrderApi.SortNewestFirst` | Controllers/OrderController.cs:33 | The result is newest first (DatePlaced non-increasing) and a permutation of the input. |
| `OrderApi.OrderController.GetAll` | Controllers/OrderController.cs:25-50 | Newest first; a permutation of the projections of all stored orders. Every element is the current answer for a stored order, and every stored order appears. |
| `OrderApi.OrderController.GetById` | Controllers/OrderController.cs:55-77 | NotFound for an absent id, otherwise Ok with the current answer for that order. |
| `OrderApi.CreatedAnswer` | Controllers/OrderController.cs:119-137 | When a stored order's lines match the request line by line, its answer lists the request's items in request order, each with its item's current name. |
| `OrderApi.AcceptedOrderEnforced` | Controllers/OrderController.cs:84-104 | An order saved under a non-blank customer name has a trimmed name that is not blank. |
| `OrderApi.AcceptedLinesEnforced` | Controllers/OrderController.cs:88-89 | Lines committed for an accepted request all have quantity in [1, int.MaxValue]. |
| `OrderApi.OrderController.Create` | Controllers/OrderController.cs:82-139 | A refusal answers with the ordered message and changes nothing. Created exactly when accepted. Then one order is stored under a fresh key with the trimmed name and the override-or-now instant, its lines are `CommittedLines(PendingLines(items))`, and inventory is untouched. The answer is the order read back: same name and instant, one item per request line in order, each with its item's current name. Enforced constraints are preserved. |
| `OrderApi.OrderController.Commit` | Controllers/OrderController.cs:100-137 | The accepted path: builds the lines, commits (the save cannot be refused, since the existence check passed), reads the order back. |
| `OrderApi.OrderController.Delete` | Controllers/OrderController.cs:144-152 | Forbidden without the Manager role, NotFound for an absent id (no change). NoContent exactly otherwise, removing that order and, by cascade, exactly its lines; inventory unchanged. |
| `Data.LogiTrackContext.RemoveOrder` | Data/LogiTrackContext.cs:24-28 | The order goes, its lines go (cascade), every other line and all inventory stay. |
| `Data.CascadeDelete` | Data/LogiTrackContext.cs:24-28 | A line survives exactly when it belongs to another order; survivors are unchanged. |
| `OrderApi.CascadeLeavesNoLines` | Data/LogiTrackContext.cs:24-28 | After deleting an order, it owns no lines. |
| `OrderApi.CascadeKeepsOtherOrders` | Data/LogiTrackContext.cs:24-28 | After deleting an order, every other order's lines read back exactly as before. |
| `Data.LinesBelongToOrders` | Data/LogiTrackContext.cs:24-28 | Foreign key OrderItem.OrderId: every line names a stored order. |
| `Data.LinesReferToInventory` | Data/LogiTrackContext.cs:30-34 | Foreign key OrderItem.InventoryItemId: every line names a stored inventory item. |
| `Data.IsReferenced` | Data/LogiTrackContext.cs:30-34 | Some line names the item: the case in which the Restrict rule refuses deleting it. |
| `Data.LogiTrackContext.RemoveInventoryItem` | Data/LogiTrackContext.cs:30-34 | Restrict rule: removal happens exactly when no line references the item, and a refusal changes nothing. On success only that row goes. |
| `Data.LogiTrackContext.AddInventoryItem` | Controllers/InventoryController.cs:81-82 | One row under a fresh key, all other rows unchanged. No uniqueness of (Name, Location) is required, matching the non-unique index at Data/LogiTrackContext.cs:20-22. |
| `Data.LogiTrackContext.constructor` | Data/LogiTrackContext.cs:11-13 | Three empty tables satisfying all keying and foreign-key invariants. |
| `Data.IdsFrom` | Controllers/InventoryController.cs:42 | Walking [lo, hi) yields exactly the keys in range, strictly ascending: `OrderBy(ItemId)`. |
| `Data.LinesOf` | Controllers/OrderController.cs:31 | An order's loaded `Items` are lines carrying that order's key. |
| `Data.LinesOfComplete` | Controllers/OrderController.cs:59 | Loading an order's `Items` loads every line the order owns, each once, in strictly ascending line key. |
| `Models.InventoryItemDeclaredValid` | Models/InventoryItem.cs:10-20 | All declared constraints of an item: Required (not blank) and MaxLength(200) on Name, Range(0, int.MaxValue) on Quantity, Required (not blank) and MaxLength(100) on Location. |
| `Models.OrderDeclaredValid` | Models/Order.cs:11-13 | Required (not blank) and MaxLength(200) on CustomerName. |
| `Models.OrderItemDeclaredValid` | Models/Order.cs:36-37 | Range(1, int.MaxValue) on a line's Quantity. |
| `Data.CommitKeepsEnforced` | Models/Order.cs:11-37 | Committing an order and lines that meet their enforced constraints keeps all tables' constraints met. |
| `Data.InsertKeepsEnforced` | Models/InventoryItem.cs:10-20 | Inserting an item that meets its enforced constraints keeps all tables' constraints met. |
| `OrderApi.DefaultLinesPassQuantityCheck` | Contracts/OrderDtos.cs:13 | Request lines that leave Quantity at its default 1 never trip the quantity check. Such a request is accepted exactly when the name is not blank, the list is non-empty and every named item is stored. |
| `OrderApi.LongCustomerNameAccepted` | Models/Order.cs:11-13 | The declared MaxLength(200) on CustomerName is not checked: a request with a 201-letter name is accepted, and the header it stores breaks the declaration while meeting the enforced constraint. |

## Left out

- Authentication and authorisation (JWT, ASP.NET Identity, `AuthController`,
  `Program.cs`) are foreign libraries. The `[Authorize(Roles = "Manager")]`
  gates become a role check on a `Caller` value. Order creation has no such
  gate in the code, so the model has none either.
- Stopwatch timing and the `X-Elapsed-ms` header carry no behaviour. Only the
  HIT/MISS flag is kept, as `CacheStatus`.
- async/await, EF Core query translation, change tracking and SQLite are not
  modelled. The store is three maps with an atomic commit, and a
  foreign-key failure on commit is a refusal that changes nothing.
- Concurrent requests, including two concurrent misses both filling the
  cache, are not modelled; the model is sequential.
- `null` strings and a `null` item list are not represented separately. Every
  guard sends them down the same branch as `""` and the empty list.
- Keys are unbounded integers handed out from a counter. The store's key
  generation and 32-bit key overflow are not modelled. Quantities are 32-bit
  (`Models.Int32`).
- Time is integer milliseconds read once per request. `DateTime` precision
  and time zones are not modelled.
- The MaxLength bounds (200, 200, 100) are declared as constants and as
  `...DeclaredValid` predicates only. No code enforces them, so no operation
  refuses on length (`InventoryApi.LongNameAccepted`,
  `OrderApi.LongCustomerNameAccepted`). Lengths count code points, while .NET
  MaxLength counts UTF-16 code units; the two differ only outside the Basic
  Multilingual Plane.
- No stock decrement on order creation, no inventory update or rename
  operation, no order update: the code has none.
- `OrderApi.SortNewestFirst`: promises no order among orders with equal
  DatePlaced. The code sorts by DatePlaced alone, so tie order is up to the
  database; a stable insertion-order tie rule is not part of the code.
- `Data.LinesOf`: its own ensures says only that every loaded line belongs to
  the order. That every owned line is loaded, once, in ascending key is the
  separate lemma `Data.LinesOfComplete`. Line-key order is a choice: EF Core
  does not promise an order for an `Include`d collection, so this is one
  admissible order, and the one a single-table store returns.
- `InventoryApi.InventoryController.Get`: a hit does not read the store, which
  a sequential state model cannot observe. The contract says only that a hit
  returns the cached value.
- `Caching.MemoryCache.TryGetValue`: the framework's background scan of
  expired entries is not modelled; an expired entry is dropped when it is
  read.
- `Text.Trim`: states the shape of the result, not how it is computed. That it
  keeps one slice of the input with blank margins is the separate lemma
  `Text.TrimIsSlice`.
