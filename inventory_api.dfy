/**
 * The inventory endpoints: a listing served through a read-through cache under
 * one key with a 30-second absolute lifetime, and the manager-only create and
 * delete, each of which drops the cached listing after a successful write.
 */
module InventoryApi {
  import opened Wrappers
  import opened Models
  import opened Contracts
  import opened Text
  import opened Data
  import opened Caching

  /** The one cache key the listing lives under. */
  const InventoryListKey := "inventory:list"

  /** Absolute lifetime of a cached listing: 30 seconds, in milliseconds. */
  const ListTtl: int := 30_000

  /** An inventory row as listed. */
  function ToReadDto(item: InventoryItem): (r: InventoryReadDto)
    ensures r.itemId == item.itemId && r.name == item.name
    ensures r.quantity == item.quantity && r.location == item.location
  {
    InventoryReadDto(item.itemId, item.name, item.quantity, item.location)
  }

  /** `s` is the listing of `items`: every stored item exactly once, projected,
      in ascending id order. */
  predicate IsListingOf(items: map<int, InventoryItem>, s: seq<InventoryReadDto>)
  {
    && (forall i, j :: 0 <= i < j < |s| ==> s[i].itemId < s[j].itemId)
    && (forall i :: 0 <= i < |s| ==> s[i].itemId in items && s[i] == ToReadDto(items[s[i].itemId]))
    && (forall id :: id in items ==> exists i :: 0 <= i < |s| && s[i].itemId == id)
  }

  /** The items stored under `ids`, projected, in that order. */
  function ProjectRows(items: map<int, InventoryItem>, ids: seq<int>): (r: seq<InventoryReadDto>)
    requires forall i :: 0 <= i < |ids| ==> ids[i] in items
    ensures |r| == |ids| && forall i :: 0 <= i < |r| ==> r[i] == ToReadDto(items[ids[i]])
  {
    if ids == [] then [] else [ToReadDto(items[ids[0]])] + ProjectRows(items, ids[1..])
  }

  /** The store's listing query: the items ordered by id, projected. */
  function ListInventory(items: map<int, InventoryItem>, nextItemId: int): (r: seq<InventoryReadDto>)
    requires InventoryKeyed(items, nextItemId)
    ensures IsListingOf(items, r)
  {
    var ids := IdsFrom(items.Keys, 1, nextItemId);
    ProjectedIdsListing(items, ids);
    ProjectRows(items, ids)
  }

  /** Projecting the rows under a strictly increasing sequence of keys that
      names every stored item gives the listing. */
  lemma ProjectedIdsListing(items: map<int, InventoryItem>, ids: seq<int>)
    requires forall i :: 0 <= i < |ids| ==> ids[i] in items && items[ids[i]].itemId == ids[i]
    requires forall i, j :: 0 <= i < j < |ids| ==> ids[i] < ids[j]
    requires forall id :: id in items ==> id in ids
    ensures IsListingOf(items, ProjectRows(items, ids))
  {
    var r := ProjectRows(items, ids);
    forall i | 0 <= i < |r|
      ensures r[i].itemId == ids[i] && r[i] == ToReadDto(items[r[i].itemId])
    {
      assert r[i] == ToReadDto(items[ids[i]]);
    }
    forall id | id in items ensures exists i :: 0 <= i < |r| && r[i].itemId == id {
      var i :| 0 <= i < |ids| && ids[i] == id;
      assert r[i].itemId == id;
    }
  }

  /** There is only one listing of a given inventory: two id-ordered listings of
      the same items are equal. */
  lemma {:induction false} ListingUnique(items: map<int, InventoryItem>, s: seq<InventoryReadDto>, t: seq<InventoryReadDto>)
    requires IsListingOf(items, s) && IsListingOf(items, t)
    ensures s == t
    decreases |s|
  {
    ListingEmptyIff(items, s);
    ListingEmptyIff(items, t);
    if s != [] {
      assert s[0].itemId in items;
      var j :| 0 <= j < |t| && t[j].itemId == s[0].itemId;
      var i :| 0 <= i < |s| && s[i].itemId == t[0].itemId;
      assert s[0].itemId == t[0].itemId by {
        assert t[0].itemId <= t[j].itemId;
        assert s[0].itemId <= s[i].itemId;
      }
      var rest := items - {s[0].itemId};
      RestIsListing(items, s);
      RestIsListing(items, t);
      ListingUnique(rest, s[1..], t[1..]);
      assert s[0] == t[0];
      SameHeadSameTail(s, t);
    } else {
      assert t == [];
    }
  }

  /** Sequences agreeing on their head and their tail are equal. */
  lemma SameHeadSameTail<T>(s: seq<T>, t: seq<T>)
    requires s != [] && t != [] && s[0] == t[0] && s[1..] == t[1..]
    ensures s == t
  {
    assert s == [s[0]] + s[1..] && t == [t[0]] + t[1..];
  }

  /** A listing is empty exactly when there is no item to list. */
  lemma ListingEmptyIff(items: map<int, InventoryItem>, s: seq<InventoryReadDto>)
    requires IsListingOf(items, s)
    ensures s == [] <==> forall id :: id !in items
  {
    if s != [] {
      assert s[0].itemId in items;
    }
  }

  /** Dropping the head of a listing lists the items without the head's id. */
  lemma RestIsListing(items: map<int, InventoryItem>, s: seq<InventoryReadDto>)
    requires IsListingOf(items, s) && s != []
    ensures IsListingOf(items - {s[0].itemId}, s[1..])
  {
    var rest := items - {s[0].itemId};
    forall id | id in rest
      ensures exists i :: 0 <= i < |s[1..]| && s[1..][i].itemId == id
    {
      var i :| 0 <= i < |s| && s[i].itemId == id;
      assert i != 0;
      assert s[1..][i - 1].itemId == id;
    }
    var t := s[1..];
    forall i | 0 <= i < |t|
      ensures t[i].itemId in rest && t[i] == ToReadDto(rest[t[i].itemId])
    {
      assert t[i] == s[i + 1];
      assert s[0].itemId < s[i + 1].itemId;
    }
    forall i, j | 0 <= i < j < |t| ensures t[i].itemId < t[j].itemId {
      assert t[i] == s[i + 1] && t[j] == s[j + 1];
    }
  }

  /** The cache holds, if anything, the listing of the current inventory. */
  predicate CacheCoherent(items: map<int, InventoryItem>, entries: map<string, CacheEntry>)
  {
    InventoryListKey in entries ==> IsListingOf(items, entries[InventoryListKey].value)
  }

  /** Under coherence, a live entry is exactly what the listing query would
      return now: serving it is indistinguishable from reading the store. */
  lemma LiveEntryIsCurrentListing(items: map<int, InventoryItem>, nextItemId: int,
                                  entries: map<string, CacheEntry>, now: Instant)
    requires InventoryKeyed(items, nextItemId)
    requires CacheCoherent(items, entries) && IsLive(entries, InventoryListKey, now)
    ensures entries[InventoryListKey].value == ListInventory(items, nextItemId)
  {
    ListingUnique(items, entries[InventoryListKey].value, ListInventory(items, nextItemId));
  }

  /** The entry a miss writes at `setAt` is not live at or after its expiry
      `setAt + ListTtl`. */
  lemma ExpiresAfterTtl(entries: map<string, CacheEntry>, value: seq<InventoryReadDto>, setAt: Instant, now: Instant)
    requires setAt + ListTtl <= now
    ensures !IsLive(entries[InventoryListKey := CacheEntry(value, setAt + ListTtl)], InventoryListKey, now)
  {
  }

  /** Why a create request is refused. */
  datatype CreateRefusal = NameRequired | LocationRequired | NegativeQuantity

  /** The text of the 400 answer for each refusal. */
  function RefusalMessage(e: CreateRefusal): string
  {
    match e
    case NameRequired => "Name is required"
    case LocationRequired => "Location is required"
    case NegativeQuantity => "Quantity cannot be negative"
  }

  /** The refusal of a create request, the checks taken in this order: name,
      location, quantity. `None` when it is accepted. */
  function CreateError(dto: InventoryCreateDto): (r: Option<CreateRefusal>)
    ensures r == Some(NameRequired) <==> IsBlank(dto.name)
    ensures r == Some(LocationRequired) <==> !IsBlank(dto.name) && IsBlank(dto.location)
    ensures r == Some(NegativeQuantity) <==> !IsBlank(dto.name) && !IsBlank(dto.location) && dto.quantity < 0
    ensures r == None <==> !IsBlank(dto.name) && !IsBlank(dto.location) && 0 <= dto.quantity
  {
    if IsBlank(dto.name) then Some(NameRequired)
    else if IsBlank(dto.location) then Some(LocationRequired)
    else if dto.quantity < 0 then Some(NegativeQuantity)
    else None
  }

  /** The row an accepted request becomes, before the store gives it its key. */
  function NewItem(dto: InventoryCreateDto, itemId: int): InventoryItem
  {
    InventoryItem(itemId, Trim(dto.name), dto.quantity, Trim(dto.location))
  }

  /** An accepted request yields a row meeting Required and the Range lower
      bound, with text that carries no surrounding white space. */
  lemma AcceptedItemEnforced(dto: InventoryCreateDto, itemId: int)
    requires CreateError(dto).None?
    ensures InventoryItemEnforced(NewItem(dto, itemId))
    ensures Trim(NewItem(dto, itemId).name) == NewItem(dto, itemId).name
    ensures Trim(NewItem(dto, itemId).location) == NewItem(dto, itemId).location
  {
    TrimEmptyIffBlank(dto.name);
    TrimEmptyIffBlank(dto.location);
    TrimIdempotent(dto.name);
    TrimIdempotent(dto.location);
    TrimEmptyIffBlank(Trim(dto.name));
    TrimEmptyIffBlank(Trim(dto.location));
  }

  /** The declared MaxLength(200) of the name is not checked: a request whose
      name is 201 letters long is accepted, and the row it stores breaks the
      declaration while meeting what is enforced. */
  lemma LongNameAccepted()
    ensures var dto := InventoryCreateDto(seq(NameMaxLength + 1, _ => 'x'), 0, "A");
      && CreateError(dto) == None
      && !InventoryItemDeclaredValid(NewItem(dto, 1))
      && InventoryItemEnforced(NewItem(dto, 1))
  {
    var name := seq(NameMaxLength + 1, _ => 'x');
    assert !IsWhiteSpace(name[0]);
    assert TrimStart(name) == name;
    assert TrimEnd(name) == name;
    assert !IsWhiteSpace("A"[0]);
    assert Trim("A") == "A";
  }

  /** The inventory endpoints over the shared database context and the shared
      memory cache. */
  class InventoryController {
    const context: LogiTrackContext
    const cache: MemoryCache

    constructor (context: LogiTrackContext, cache: MemoryCache)
      ensures this.context == context && this.cache == cache
    {
      this.context := context;
      this.cache := cache;
    }

    /** The cached listing, if any, is the listing of the current inventory. */
    ghost predicate Coherent()
      reads this, context, cache
    {
      CacheCoherent(context.inventoryItems, cache.entries)
    }

    /** GET /api/inventory. A live cached listing is returned as it is (HIT);
        otherwise the listing is read from the store, cached until `now + ListTtl`
        and returned (MISS). Under coherence both are the current listing. */
    method Get(now: Instant) returns (items: seq<InventoryReadDto>, status: CacheStatus)
      requires context.Valid()
      modifies cache
      ensures status == Hit <==> IsLive(old(cache.entries), InventoryListKey, now)
      ensures status == Hit ==>
        items == old(cache.entries)[InventoryListKey].value && cache.entries == old(cache.entries)
      ensures status == Miss ==>
        && IsListingOf(context.inventoryItems, items)
        && cache.entries == old(cache.entries)[InventoryListKey := CacheEntry(items, now + ListTtl)]
      ensures old(Coherent()) ==> IsListingOf(context.inventoryItems, items)
      ensures old(Coherent()) || status == Miss ==> Coherent()
    {
      var found, cached := cache.TryGetValue(InventoryListKey, now);
      if found {
        return cached, Hit;
      }
      items := ListInventory(context.inventoryItems, context.nextItemId);
      cache.Set(InventoryListKey, items, now + ListTtl);
      status := Miss;
    }

    /** POST /api/inventory (managers only). A refused request changes nothing;
        an accepted one stores exactly one new row with trimmed text under a
        fresh id, then drops the cached listing. */
    method Create(caller: Caller, dto: InventoryCreateDto) returns (r: ActionResult<InventoryReadDto>)
      requires context.Valid()
      modifies context, cache
      ensures context.Valid()
      ensures !IsManager(caller) ==> r == Forbidden
      ensures IsManager(caller) && CreateError(dto).Some? ==> r == BadRequest(RefusalMessage(CreateError(dto).value))
      ensures r.Created? <==> IsManager(caller) && CreateError(dto).None?
      ensures !r.Created? ==> unchanged(context) && cache.entries == old(cache.entries)
      ensures r.Created? ==>
        var id := r.value.itemId;
        && id !in old(context.inventoryItems)
        && context.inventoryItems == old(context.inventoryItems)[id := NewItem(dto, id)]
        && r.value == ToReadDto(NewItem(dto, id))
        && context.orders == old(context.orders) && context.orderItems == old(context.orderItems)
        && cache.entries == old(cache.entries) - {InventoryListKey}
      ensures old(context.RowsEnforced()) ==> context.RowsEnforced()
      ensures old(Coherent()) ==> Coherent()
    {
      if !IsManager(caller) {
        return Forbidden;
      }
      var error := CreateError(dto);
      if error.Some? {
        return BadRequest(RefusalMessage(error.value));
      }
      var entity := context.AddInventoryItem(Trim(dto.name), dto.quantity, Trim(dto.location));
      assert old(context.RowsEnforced()) ==> context.RowsEnforced() by {
        AcceptedItemEnforced(dto, entity.itemId);
        InsertKeepsEnforced(old(context.inventoryItems), context.orders, context.orderItems, entity);
      }
      cache.Remove(InventoryListKey);
      r := Created(ToReadDto(entity));
    }

    /** DELETE /api/inventory/{id} (managers only). An absent id is NotFound; a
        row still referenced by an order line is refused by the store, which
        surfaces as a server error before the cache is touched; otherwise
        exactly that row goes and the cached listing is dropped. */
    method Delete(caller: Caller, id: int) returns (r: ActionResult<()>)
      requires context.Valid()
      modifies context, cache
      ensures context.Valid()
      ensures !IsManager(caller) ==> r == Forbidden
      ensures IsManager(caller) && id !in old(context.inventoryItems) ==> r == NotFound
      ensures IsManager(caller) && id in old(context.inventoryItems) && IsReferenced(old(context.orderItems), id) ==>
                r == ServerError
      ensures r == NoContent <==>
        IsManager(caller) && id in old(context.inventoryItems) && !IsReferenced(old(context.orderItems), id)
      ensures r != NoContent ==> unchanged(context) && cache.entries == old(cache.entries)
      ensures r == NoContent ==>
        && context.inventoryItems == old(context.inventoryItems) - {id}
        && context.orders == old(context.orders) && context.orderItems == old(context.orderItems)
        && cache.entries == old(cache.entries) - {InventoryListKey}
      ensures old(context.RowsEnforced()) ==> context.RowsEnforced()
      ensures old(Coherent()) ==> Coherent()
    {
      if !IsManager(caller) {
        return Forbidden;
      }
      if id !in context.inventoryItems {
        return NotFound;
      }
      var removed := context.RemoveInventoryItem(id);
      if !removed {
        return ServerError;
      }
      cache.Remove(InventoryListKey);
      r := NoContent;
    }
  }
}
