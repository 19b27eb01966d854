/** The monolith's first ItemService, over the in-memory item and user
    storage. The caller's id comes from a request header as a nullable
    `Integer`; item ids are counted by the service. */
module InMemoryItems {
  import opened Base
  import opened Domain
  import opened Seqs
  import opened ItemRules
  import opened InMemoryStore
  import ItemMapper

  /** validateUser(owner, userId): a missing id, then a missing user, both NOT_FOUND. */
  function CheckUser(owner: Option<User>, userId: Option<int>): (o: Outcome)
    ensures o == Pass <==> userId.Some? && owner.Some?
    ensures userId.None? ==> o == Fail(UserIdMissing)
    ensures userId.Some? && owner.None? ==> o == Fail(NotFound(UserEntity))
    ensures o.Fail? ==> StatusOf(o.error) == HttpNotFound
  {
    if userId.None? then Fail(UserIdMissing)
    else if owner.None? then Fail(NotFound(UserEntity))
    else Pass
  }

  /** createItem given what `getUserById(userId)` returned: validateUser,
      then validateItem, then the item built under the next id. */
  function CreateResult(owner: Option<User>, userId: Option<int>, dto: ItemDto, newId: int): (r: Result<Item>)
    ensures r.Ok? <==> userId.Some? && owner.Some? && dto.name.Some? && dto.description.Some?
    ensures CheckUser(owner, userId).Fail? ==> r == Err(CheckUser(owner, userId).error)
    ensures CheckUser(owner, userId) == Pass && ValidateItem(dto).Fail? ==> r == Err(ValidateItem(dto).error)
    ensures r.Ok? ==> (r.value.id == newId && r.value.owner == owner.value && r.value.request.None?
                       && ItemMapper.ToItemDto(r.value) == dto.(id := newId, requestId := None))
  {
    match CheckUser(owner, userId)
    case Fail(e) => Err(e)
    case Pass =>
      match ValidateItem(dto)
      case Fail(e) => Err(e)
      case Pass => Ok(ItemMapper.ToItem(newId, owner.value, dto))
  }

  /** updateItem given what the two storages returned: the stored item's
      owner is read first, so an unknown item throws before any check; then
      validateUser, then the caller must own the item; the null fields of the
      patch are filled from the stored item and the result is owned by the
      caller's current user record. */
  function UpdateResult(owner: Option<User>, stored: Option<Item>, userId: Option<int>, itemId: int, dto: ItemDto): (r: Result<Item>)
    ensures r.Ok? <==> (stored.Some? && userId.Some? && owner.Some? && stored.value.owner.id == userId.value)
    ensures stored.None? ==> r == Err(NullDereference)
    ensures stored.Some? && CheckUser(owner, userId).Fail? ==> r == Err(CheckUser(owner, userId).error)
    ensures r.Err? && stored.Some? && CheckUser(owner, userId) == Pass ==> r.error == NotItemOwner
    ensures r.Ok? ==> (r.value.id == itemId && r.value.owner == owner.value && r.value.request.None?
                       && ItemMapper.ToItemDto(r.value) == Merge(dto, stored.value).(id := itemId, requestId := None))
  {
    match stored
    case None => Err(NullDereference)
    case Some(item) =>
      match CheckUser(owner, userId)
      case Fail(e) => Err(e)
      case Pass =>
        if item.owner.id != userId.value then Err(NotItemOwner)
        else Ok(ItemMapper.ToItem(itemId, owner.value, Merge(dto, item)))
  }

  /** An update that sends no field, by the owner whose record is unchanged,
      gives the stored item back. */
  lemma EmptyUpdateKeepsItem(stored: Item, dto: ItemDto)
    requires stored.request.None?
    requires dto.name.None? && dto.description.None? && dto.available.None?
    ensures UpdateResult(Some(stored.owner), Some(stored), Some(stored.owner.id), stored.id, dto) == Ok(stored)
  {
    EmptyPatchKeepsItem(dto.id, dto.requestId, stored);
    assert dto == ItemDto(dto.id, None, None, None, dto.requestId);
  }

  /** An update keeps an item that passed validateItem valid. */
  lemma UpdateKeepsValid(owner: Option<User>, stored: Option<Item>, userId: Option<int>, itemId: int, dto: ItemDto)
    requires UpdateResult(owner, stored, userId, itemId, dto).Ok?
    requires stored.value.name.Some? && stored.value.description.Some?
    ensures var r := UpdateResult(owner, stored, userId, itemId, dto).value;
      r.name.Some? && r.description.Some?
  {
    MergeKeepsValid(dto, stored.value);
  }

  class ItemService {
    const itemStorage: ItemStorage
    const userStorage: UserStorage
    /** The last id handed out by generateItemId. */
    var itemId: int

    /** Both storages are keyed by id and no stored item has an id above the counter. */
    ghost predicate Valid()
      reads this, itemStorage, userStorage
    {
      itemStorage.Valid() && userStorage.Valid() && 0 <= itemId
      && (forall k :: k in itemStorage.itemMap ==> k <= itemId)
    }

    constructor (itemStorage: ItemStorage, userStorage: UserStorage)
      requires itemStorage.Valid() && itemStorage.itemMap == map[] && userStorage.Valid()
      ensures Valid() && this.itemStorage == itemStorage && this.userStorage == userStorage && itemId == 0
    {
      this.itemStorage := itemStorage;
      this.userStorage := userStorage;
      itemId := 0;
    }

    /** generateItemId: 1, 2, 3, ... in call order. */
    method GenerateItemId() returns (id: int)
      modifies this
      ensures itemId == old(itemId) + 1 && id == itemId
    {
      itemId := itemId + 1;
      id := itemId;
    }

    /** createItem: the id is drawn only once both checks pass, and the new
        item never overwrites a stored one; on failure nothing changes. */
    method CreateItem(userId: Option<int>, dto: ItemDto) returns (r: Result<Item>)
      requires Valid()
      modifies this, itemStorage
      ensures Valid()
      ensures r == CreateResult(old(userStorage.GetUserById(userId)), userId, dto, old(itemId) + 1)
      ensures r.Ok? ==> (itemId == old(itemId) + 1 && r.value.id !in old(itemStorage.itemMap)
                         && itemStorage.itemMap == old(itemStorage.itemMap)[r.value.id := r.value])
      ensures r.Err? ==> itemId == old(itemId) && itemStorage.itemMap == old(itemStorage.itemMap)
    {
      var owner := userStorage.GetUserById(userId);
      var valid := CheckUser(owner, userId);
      if valid.Fail? {
        return Err(valid.error);
      }
      valid := ValidateItem(dto);
      if valid.Fail? {
        return Err(valid.error);
      }
      var id := GenerateItemId();
      var item := ItemMapper.ToItem(id, owner.value, dto);
      item := itemStorage.CreateItem(item);
      r := Ok(item);
    }

    /** updateItem: on success the stored item is replaced under its id; on
        failure nothing changes. */
    method UpdateItem(userId: Option<int>, itemId': int, dto: ItemDto) returns (r: Result<Item>)
      requires Valid()
      modifies itemStorage
      ensures Valid()
      ensures r == UpdateResult(old(userStorage.GetUserById(userId)), old(itemStorage.GetItemById(itemId')), userId, itemId', dto)
      ensures r.Ok? ==> itemId' in old(itemStorage.itemMap) && itemStorage.itemMap == old(itemStorage.itemMap)[itemId' := r.value]
      ensures r.Err? ==> itemStorage.itemMap == old(itemStorage.itemMap)
    {
      var owner := userStorage.GetUserById(userId);
      var stored := itemStorage.GetItemById(itemId');
      if stored.None? {
        return Err(NullDereference);
      }
      var valid := CheckUser(owner, userId);
      if valid.Fail? {
        return Err(valid.error);
      }
      if stored.value.owner.id != userId.value {
        return Err(NotItemOwner);
      }
      var patch := dto;
      if patch.available.None? {
        patch := patch.(available := stored.value.available);
      }
      if patch.name.None? {
        patch := patch.(name := stored.value.name);
      }
      if patch.description.None? {
        patch := patch.(description := stored.value.description);
      }
      assert patch == Merge(dto, stored.value);
      var item := ItemMapper.ToItem(itemId', owner.value, patch);
      item := itemStorage.UpdateItem(item);
      r := Ok(item);
    }

    /** searchItems: nothing for an empty text; otherwise exactly the stored,
        available items whose name or description mentions the text, unless
        one of them lacks a name, description or availability flag that the
        stream reaches, which throws. */
    function SearchItems(text: string, order: seq<int>): (r: Result<seq<Item>>)
      reads this, itemStorage, userStorage
      requires Valid() && IterationOrder(itemStorage.itemMap, order)
      ensures text == [] ==> r == Ok([])
      ensures r.Err? ==> r.error == NullDereference
      ensures r.Ok? ==> forall i :: i in r.value ==> (i.id in itemStorage.itemMap && itemStorage.itemMap[i.id] == i
                                                      && i.available == Some(true) && Mentions(i, text))
      ensures r.Ok? && text != [] ==> forall k :: (k in itemStorage.itemMap && itemStorage.itemMap[k].name.Some?
                                                   && itemStorage.itemMap[k].available == Some(true)
                                                   && Mentions(itemStorage.itemMap[k], text)) ==> itemStorage.itemMap[k] in r.value
      ensures r.Ok? && text != [] ==> r.value == Filter(ValuesIn(itemStorage.itemMap, order), KeptFor(text))
      ensures r.Err? <==> text != [] && exists k :: 0 <= k < |ValuesIn(itemStorage.itemMap, order)|
                                                   && Keep(ValuesIn(itemStorage.itemMap, order)[k], text).Err?
    {
      var items := itemStorage.SearchItems(order);
      assert items == ValuesIn(itemStorage.itemMap, order);
      SearchExact(items, text);
      Search(items, text)
    }
  }
}
