/** The monolith's JPA ItemService: the server's operations before item
    requests and paging were added. Items carry no request, search reads every
    item, and the item view summarises bookings as the id-flattened BookingDto. */
module MonolithItems {
  import opened Base
  import opened Domain
  import opened Seqs
  import opened Store
  import opened CommentQueries
  import opened ItemQueries
  import opened ItemRules
  import ItemMapper
  import BookingMapper
  import ServerItems

  /** createItem's checks in source order (the owner, validateItem), and the
      item saved under `itemId`, without a request. */
  function NewItemResult(users: seq<User>, userId: int, dto: ItemDto, itemId: int): (r: Result<Item>)
    ensures r.Ok? <==> Find(users, UserKey, userId).Some? && ValidateItem(dto) == Pass
    ensures Find(users, UserKey, userId).None? ==> r == Err(Missing(UserEntity))
    ensures Find(users, UserKey, userId).Some? && ValidateItem(dto).Fail? ==> r == Err(ValidateItem(dto).error)
    ensures r.Ok? ==> (r.value.id == itemId && r.value.owner in users && r.value.owner.id == userId
                       && ItemMapper.ToItemDto(r.value) == dto.(id := itemId, requestId := None)
                       && r.value.name.Some? && r.value.description.Some? && r.value.request.None?)
  {
    match Find(users, UserKey, userId)
    case None => Err(Missing(UserEntity))
    case Some(owner) =>
      match ValidateItem(dto)
      case Fail(e) => Err(e)
      case Pass => Ok(ItemMapper.ToItem(itemId, owner, dto))
  }

  /** updateItem's checks in source order (the caller, the stored item, the
      caller is its owner), then the merge, and the item saved. */
  function UpdateResult(users: seq<User>, items: seq<Item>, userId: int, itemId: int, dto: ItemDto): (r: Result<Item>)
    ensures r.Ok? <==> (Find(users, UserKey, userId).Some? && Find(items, ItemKey, itemId).Some?
                        && Find(items, ItemKey, itemId).value.owner.id == userId)
    ensures Find(users, UserKey, userId).None? ==> r == Err(Missing(UserEntity))
    ensures Find(users, UserKey, userId).Some? && Find(items, ItemKey, itemId).None? ==> r == Err(Missing(ItemEntity))
    ensures r.Err? && Find(users, UserKey, userId).Some? && Find(items, ItemKey, itemId).Some? ==> r.error == NotItemOwner
    ensures r.Ok? ==> (r.value.id == itemId && r.value.owner in users && r.value.owner.id == userId && r.value.request.None?
                       && ItemMapper.ToItemDto(r.value) == Merge(dto, Find(items, ItemKey, itemId).value).(id := itemId, requestId := None))
  {
    match Find(users, UserKey, userId)
    case None => Err(Missing(UserEntity))
    case Some(owner) =>
      match Find(items, ItemKey, itemId)
      case None => Err(Missing(ItemEntity))
      case Some(stored) =>
        if stored.owner.id != userId then Err(NotItemOwner)
        else Ok(ItemMapper.ToItem(itemId, owner, Merge(dto, stored)))
  }

  /** An update keeps a stored item that has a name and a description valid. */
  lemma UpdateKeepsValid(users: seq<User>, items: seq<Item>, userId: int, itemId: int, dto: ItemDto)
    requires UpdateResult(users, items, userId, itemId, dto).Ok?
    requires Find(items, ItemKey, itemId).value.name.Some? && Find(items, ItemKey, itemId).value.description.Some?
    ensures var r := UpdateResult(users, items, userId, itemId, dto).value;
      r.name.Some? && r.description.Some?
  {
    MergeKeepsValid(dto, Find(items, ItemKey, itemId).value);
  }

  /** searchItems: every stored item, searched. */
  function SearchItems(items: seq<Item>, text: string): (r: Result<seq<Item>>)
    ensures text == [] ==> r == Ok([])
    ensures r.Ok? ==> forall i :: i in r.value ==> i in items && i.available == Some(true) && Mentions(i, text)
    ensures r.Ok? && text != [] ==> forall i :: i in items && i.name.Some? && i.available == Some(true) && Mentions(i, text) ==> i in r.value
    ensures r.Ok? && text != [] ==> r.value == Filter(items, KeptFor(text))
    ensures r.Err? <==> text != [] && exists k :: 0 <= k < |items| && Keep(items[k], text).Err?
    ensures r.Err? ==> r.error == NullDereference
  {
    SearchExact(items, text);
    Search(items, text)
  }

  /** A booking as the monolith's item view shows it, or null. */
  function Summary(b: Option<Booking>): Option<BookingDto>
  {
    if b.Some? then Some(BookingMapper.ToBookingDto(b.value)) else None
  }

  /** The monolith's view of a found item: the last and next booking for the
      owner only, and the item's comments for every caller. */
  function ItemView(bookings: seq<Booking>, comments: seq<Comment>, item: Item, userId: int, now: Time): (v: ItemByIdDto<BookingDto>)
    ensures v.id == item.id && v.name == item.name && v.description == item.description && v.available == item.available
    ensures userId != item.owner.id ==> v.lastBooking.None? && v.nextBooking.None?
    ensures userId == item.owner.id ==> v.lastBooking == Summary(ServerItems.LastBooking(bookings, item.id, now))
    ensures userId == item.owner.id ==> v.nextBooking == Summary(ServerItems.NextBooking(bookings, item.id, now))
    ensures v.lastBooking.Some? ==> v.lastBooking.value.itemId == item.id && v.lastBooking.value.start < now
    ensures v.nextBooking.Some? ==> v.nextBooking.value.itemId == item.id && now < v.nextBooking.value.start
    ensures |v.comments| == |CommentsByItem(comments, item.id)|
  {
    var commentList := ItemMapper.ToCommentDtoCollection(CommentsByItem(comments, item.id));
    if userId == item.owner.id then
      ItemMapper.ToItemByIdDto(item, Summary(ServerItems.LastBooking(bookings, item.id, now)),
                               Summary(ServerItems.NextBooking(bookings, item.id, now)), commentList)
    else ItemMapper.ToItemByIdDto(item, None, None, commentList)
  }

  /** getItemById: an unknown item is NOT_FOUND; otherwise the caller's view of it. */
  function GetItemById(items: seq<Item>, bookings: seq<Booking>, comments: seq<Comment>, itemId: int, userId: int, now: Time): (r: Result<ItemByIdDto<BookingDto>>)
    ensures r.Err? <==> Find(items, ItemKey, itemId).None?
    ensures r.Err? ==> r.error == NotFound(ItemEntity)
    ensures r.Ok? ==> r.value.id == itemId
    ensures r.Ok? ==> r.value == ItemView(bookings, comments, Find(items, ItemKey, itemId).value, userId, now)
  {
    match Find(items, ItemKey, itemId)
    case None => Err(NotFound(ItemEntity))
    case Some(item) => Ok(ItemView(bookings, comments, item, userId, now))
  }

  /** getItemById(item.getId(), userId) over a list of stored items; it never throws, as every item is found. */
  function ViewsOf(items: seq<Item>, bookings: seq<Booking>, comments: seq<Comment>, listed: seq<Item>, userId: int, now: Time): (r: seq<ItemByIdDto<BookingDto>>)
    requires forall i :: i in listed ==> i in items
    ensures |r| == |listed|
    ensures forall k :: 0 <= k < |listed| ==> GetItemById(items, bookings, comments, listed[k].id, userId, now) == Ok(r[k])
  {
    assert forall k :: 0 <= k < |listed| ==> listed[k] in items && ItemKey(listed[k]) == listed[k].id;
    seq(|listed|, k requires 0 <= k < |listed| =>
      assert listed[k] in listed;
      GetItemById(items, bookings, comments, listed[k].id, userId, now).value)
  }


  /** The unpaged getAllItemsByUser(userId): every item the user owns, as one page. */
  function OwnItems(items: seq<Item>, userId: int): (r: seq<Item>)
    ensures forall i :: i in r <==> i in items && i.owner.id == userId
  {
    ItemsByOwnerComplete(items, userId, PageRequest(0, |items|));
    ItemsByOwner(items, userId, PageRequest(0, |items|))
  }

  /** getAllItemsByUser: one view per item the user owns. */
  function GetAllItemsByUser(items: seq<Item>, bookings: seq<Booking>, comments: seq<Comment>, userId: int, now: Time): (r: seq<ItemByIdDto<BookingDto>>)
    ensures |r| == |OwnItems(items, userId)|
    ensures forall k :: 0 <= k < |r| ==> r[k].id == OwnItems(items, userId)[k].id
  {
    ViewsOf(items, bookings, comments, OwnItems(items, userId), userId, now)
  }

  class ItemService {
    /** The last ids handed out by generateItemId and generateCommentId. */
    var itemId: int
    var commentId: int
    const db: Database

    /** The database is consistent and no stored item or comment has an id above its counter. */
    ghost predicate Valid()
      reads this, db
    {
      db.Valid() && 0 <= itemId && 0 <= commentId
      && (forall i :: i in db.items ==> i.id <= itemId)
      && (forall c :: c in db.comments ==> c.id <= commentId)
    }

    constructor (db: Database)
      requires db.Valid() && db.items == [] && db.comments == []
      ensures Valid() && this.db == db && itemId == 0 && commentId == 0
    {
      this.db := db;
      itemId, commentId := 0, 0;
    }

    /** generateItemId: 1, 2, 3, ... in call order. */
    method GenerateItemId() returns (id: int)
      modifies this
      ensures itemId == old(itemId) + 1 && id == itemId && commentId == old(commentId)
    {
      itemId := itemId + 1;
      id := itemId;
    }

    /** generateCommentId: 1, 2, 3, ... in call order. */
    method GenerateCommentId() returns (id: int)
      modifies this
      ensures commentId == old(commentId) + 1 && id == commentId && itemId == old(itemId)
    {
      commentId := commentId + 1;
      id := commentId;
    }

    /** createComment: the same checks as the server's; on success exactly one
        comment is appended, on failure nothing changes. */
    method CreateComment(authorId: int, itemId': int, dto: CommentDtoIn, now: Time) returns (r: Result<Comment>)
      requires Valid()
      modifies this, db
      ensures Valid()
      ensures r == ServerItems.CommentResult(old(db.users), old(db.items), old(db.bookings), authorId, itemId', dto, now, old(commentId) + 1)
      ensures r.Ok? ==> commentId == old(commentId) + 1 && db.comments == old(db.comments) + [r.value]
      ensures r.Err? ==> commentId == old(commentId) && db.comments == old(db.comments)
      ensures itemId == old(itemId)
      ensures db.users == old(db.users) && db.items == old(db.items) && db.bookings == old(db.bookings) && db.requests == old(db.requests)
    {
      r := ServerItems.CommentResult(db.users, db.items, db.bookings, authorId, itemId', dto, now, commentId + 1);
      if r.Ok? {
        var id := GenerateCommentId();
        db.SaveComment(r.value);
      }
    }

    /** createItem: on success exactly one item is appended; on failure nothing changes. */
    method CreateItem(userId: int, dto: ItemDto) returns (r: Result<Item>)
      requires Valid()
      modifies this, db
      ensures Valid()
      ensures r == NewItemResult(old(db.users), userId, dto, old(itemId) + 1)
      ensures r.Ok? ==> itemId == old(itemId) + 1 && db.items == old(db.items) + [r.value]
      ensures r.Err? ==> itemId == old(itemId) && db.items == old(db.items)
      ensures commentId == old(commentId)
      ensures db.users == old(db.users) && db.bookings == old(db.bookings) && db.comments == old(db.comments) && db.requests == old(db.requests)
    {
      var owner := Find(db.users, UserKey, userId);
      if owner.None? {
        return Err(Missing(UserEntity));
      }
      var valid := ValidateItem(dto);
      if valid.Fail? {
        return Err(valid.error);
      }
      var id := GenerateItemId();
      var item := ItemMapper.ToItem(id, owner.value, dto);
      db.SaveItem(item);
      r := Ok(item);
    }

    /** updateItem: the setters fill the null fields of the patch from the
        stored item; on success the stored item is replaced, on failure nothing changes. */
    method UpdateItem(userId: int, itemId': int, dto: ItemDto) returns (r: Result<Item>)
      requires Valid()
      modifies db
      ensures Valid()
      ensures r == UpdateResult(old(db.users), old(db.items), userId, itemId', dto)
      ensures r.Ok? ==> db.items == Upsert(old(db.items), r.value, ItemKey)
      ensures r.Err? ==> db.items == old(db.items)
      ensures db.users == old(db.users) && db.bookings == old(db.bookings) && db.comments == old(db.comments) && db.requests == old(db.requests)
    {
      var owner := Find(db.users, UserKey, userId);
      if owner.None? {
        return Err(Missing(UserEntity));
      }
      var stored := Find(db.items, ItemKey, itemId');
      if stored.None? {
        return Err(Missing(ItemEntity));
      }
      if stored.value.owner.id != userId {
        return Err(NotItemOwner);
      }
      var patch := dto;
      if patch.available.None? {
        patch := patch.(available := stored.value.available);
      }
      if patch.name.None? {
        patch := patch.(name := stored.value.name);
      }
      if patch.description.None? {
        patch := patch.(description := stored.value.description);
      }
      assert patch == Merge(dto, stored.value);
      var item := ItemMapper.ToItem(itemId', owner.value, patch);
      db.SaveItem(item);
      r := Ok(item);
    }

    /** deleteItem: drops the item with that id, if any. */
    method DeleteItem(itemId': int)
      requires Valid()
      modifies db
      ensures Valid()
      ensures db.items == Filter(old(db.items), KeyIsNot(ItemKey, itemId'))
      ensures db.users == old(db.users) && db.bookings == old(db.bookings) && db.comments == old(db.comments) && db.requests == old(db.requests)
    {
      db.DeleteItemById(itemId');
    }
  }
}
