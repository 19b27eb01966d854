/** The server's ItemService: items, comments, search and the item view with
    its last and next booking. It holds two id counters and works on the
    shared Database. */
module ServerItems {
  import opened Base
  import opened Domain
  import opened Seqs
  import opened Store
  import opened BookingQueries
  import opened CommentQueries
  import opened ItemQueries
  import opened ItemRules
  import ItemMapper
  import ServerBookingMapper

  // ---------------------------------------------------------------- comments

  /** createComment's checks in source order: the author, the item (both via
      `orElseThrow`), then validateComment on the same `now`; on success, the
      comment saved under `commentId`. */
  function CommentResult(users: seq<User>, items: seq<Item>, bookings: seq<Booking>,
                         authorId: int, itemId: int, dto: CommentDtoIn, now: Time, commentId: int): (r: Result<Comment>)
    ensures Find(users, UserKey, authorId).None? ==> r == Err(Missing(UserEntity))
    ensures Find(users, UserKey, authorId).Some? && Find(items, ItemKey, itemId).None? ==> r == Err(Missing(ItemEntity))
    ensures Find(users, UserKey, authorId).Some? && Find(items, ItemKey, itemId).Some? && dto.text == [] ==> r == Err(EmptyComment)
    ensures (forall b :: b in bookings ==> !FinishedBookingBy(b, itemId, authorId, now)) ==> r.Err?
    ensures Find(users, UserKey, authorId).Some? && Find(items, ItemKey, itemId).Some? && dto.text != []
            && (forall b :: b in bookings ==> !FinishedBookingBy(b, itemId, authorId, now))
      ==> r == Err(NotABooker)
    ensures Find(users, UserKey, authorId).Some? && Find(items, ItemKey, itemId).Some? && dto.text != []
            && TwoFinished(bookings, itemId, authorId, now)
      ==> r == Err(NonUniqueResult)
    ensures r.Ok? <==> Find(users, UserKey, authorId).Some? && Find(items, ItemKey, itemId).Some? && dto.text != []
                       && (exists b :: b in bookings && FinishedBookingBy(b, itemId, authorId, now))
                       && !TwoFinished(bookings, itemId, authorId, now)
    ensures r.Ok? ==> (r.value.id == commentId && r.value.text == dto.text && r.value.text != [] && r.value.created == now
                       && r.value.author in users && r.value.author.id == authorId
                       && r.value.item in items && r.value.item.id == itemId
                       && exists b :: b in bookings && FinishedBookingBy(b, itemId, authorId, now))
  {
    match Find(users, UserKey, authorId)
    case None => Err(Missing(UserEntity))
    case Some(author) =>
      match Find(items, ItemKey, itemId)
      case None => Err(Missing(ItemEntity))
      case Some(item) =>
        if dto.text == [] then Err(EmptyComment)
        else
          match FindBookerByItemId(bookings, itemId, authorId, now)
          case Err(e) => Err(e)
          case Ok(None) => Err(NotABooker)
          case Ok(Some(_)) => Ok(Comment(commentId, dto.text, item, author, now))
  }

  // ---------------------------------------------------------------- items

  /** The four-argument ItemMapper.toItem of the server: the DTO's fields with
      the given id, owner and request. */
  function ToItem(itemId: int, owner: User, dto: ItemDto, request: Option<ItemRequest>): (i: Item)
    ensures ItemMapper.ToItemDto(i) == dto.(id := itemId, requestId := None)
    ensures i.owner == owner && i.request == request
  {
    Item(itemId, dto.name, dto.description, dto.available, owner, request)
  }

  /** The request a DTO names: none when `requestId` is null, otherwise the
      stored request, whose absence throws. */
  function RequestOf(requests: seq<ItemRequest>, dto: ItemDto): (r: Result<Option<ItemRequest>>)
    ensures r.Err? <==> dto.requestId.Some? && Find(requests, RequestKey, dto.requestId.value).None?
    ensures r.Err? ==> r.error == Missing(RequestEntity)
    ensures r.Ok? ==> (r.value.Some? <==> dto.requestId.Some?)
    ensures r.Ok? && r.value.Some? ==> r.value.value in requests && r.value.value.id == dto.requestId.value
  {
    if dto.requestId.None? then Ok(None)
    else
      match Find(requests, RequestKey, dto.requestId.value)
      case None => Err(Missing(RequestEntity))
      case Some(request) => Ok(Some(request))
  }

  /** createItem's checks in source order (the owner, validateUser, which
      cannot fail once the owner was found, validateItem, the request), and
      the item saved under `itemId`. */
  function NewItemResult(users: seq<User>, requests: seq<ItemRequest>, userId: int, dto: ItemDto, itemId: int): (r: Result<Item>)
    ensures r.Ok? <==> Find(users, UserKey, userId).Some? && ValidateItem(dto) == Pass && RequestOf(requests, dto).Ok?
    ensures Find(users, UserKey, userId).None? ==> r == Err(Missing(UserEntity))
    ensures Find(users, UserKey, userId).Some? && ValidateItem(dto).Fail? ==> r == Err(ValidateItem(dto).error)
    ensures Find(users, UserKey, userId).Some? && ValidateItem(dto) == Pass && RequestOf(requests, dto).Err?
      ==> r == Err(Missing(RequestEntity))
    ensures r.Ok? ==> (r.value.id == itemId && r.value.owner in users && r.value.owner.id == userId
                       && r.value.name == dto.name && r.value.description == dto.description && r.value.available == dto.available
                       && r.value.name.Some? && r.value.description.Some?
                       && r.value.request == RequestOf(requests, dto).value)
  {
    match Find(users, UserKey, userId)
    case None => Err(Missing(UserEntity))
    case Some(owner) =>
      match ValidateItem(dto)
      case Fail(e) => Err(e)
      case Pass =>
        match RequestOf(requests, dto)
        case Err(e) => Err(e)
        case Ok(request) => Ok(ToItem(itemId, owner, dto, request))
  }

  /** updateItem's checks in source order (the caller, the stored item, the
      caller is its owner), then the merge, then the request, and the item saved. */
  function UpdateResult(users: seq<User>, items: seq<Item>, requests: seq<ItemRequest>, userId: int, itemId: int, dto: ItemDto): (r: Result<Item>)
    ensures Find(users, UserKey, userId).None? ==> r == Err(Missing(UserEntity))
    ensures Find(users, UserKey, userId).Some? && Find(items, ItemKey, itemId).None? ==> r == Err(Missing(ItemEntity))
    ensures (Find(users, UserKey, userId).Some? && Find(items, ItemKey, itemId).Some?
             && Find(items, ItemKey, itemId).value.owner.id != userId) ==> r == Err(NotItemOwner)
    ensures r.Ok? ==> var stored := Find(items, ItemKey, itemId).value;
      stored.owner.id == userId && r.value.id == itemId && r.value.owner.id == userId && r.value.owner in users
      && r.value.name == OrStored(dto.name, stored.name)
      && r.value.description == OrStored(dto.description, stored.description)
      && r.value.available == OrStored(dto.available, stored.available)
      && (dto.requestId.None? ==> r.value.request == None)
    ensures r.Ok? <==> Find(users, UserKey, userId).Some? && Find(items, ItemKey, itemId).Some?
                       && Find(items, ItemKey, itemId).value.owner.id == userId
                       && RequestOf(requests, Merge(dto, Find(items, ItemKey, itemId).value)).Ok?
    ensures r.Ok? ==> r.value.request == RequestOf(requests, Merge(dto, Find(items, ItemKey, itemId).value)).value
    ensures (Find(users, UserKey, userId).Some? && Find(items, ItemKey, itemId).Some?
             && Find(items, ItemKey, itemId).value.owner.id == userId
             && RequestOf(requests, Merge(dto, Find(items, ItemKey, itemId).value)).Err?) ==> r == Err(Missing(RequestEntity))
  {
    match Find(users, UserKey, userId)
    case None => Err(Missing(UserEntity))
    case Some(owner) =>
      match Find(items, ItemKey, itemId)
      case None => Err(Missing(ItemEntity))
      case Some(stored) =>
        if stored.owner.id != userId then Err(NotItemOwner)
        else
          var merged := Merge(dto, stored);
          match RequestOf(requests, merged)
          case Err(e) => Err(e)
          case Ok(request) => Ok(ToItem(itemId, owner, merged, request))
  }

  /** An update with no fields and no request leaves the stored item's data
      in place, but drops the request it answered. */
  lemma EmptyUpdateDropsRequest(users: seq<User>, items: seq<Item>, requests: seq<ItemRequest>, userId: int, itemId: int)
    requires UpdateResult(users, items, requests, userId, itemId, ItemDto(itemId, None, None, None, None)).Ok?
    ensures var r := UpdateResult(users, items, requests, userId, itemId, ItemDto(itemId, None, None, None, None)).value;
      var stored := Find(items, ItemKey, itemId).value;
      r.name == stored.name && r.description == stored.description && r.available == stored.available
      && r.request == None
  {
  }

  // ---------------------------------------------------------------- reading

  /** searchItems: the page `page` of all items, searched. */
  function SearchItems(items: seq<Item>, text: string, page: PageRequest): (r: Result<seq<Item>>)
    ensures text == [] ==> r == Ok([])
    ensures r.Ok? ==> forall i :: i in r.value ==> i in Window(items, page) && i in items && i.available == Some(true) && Mentions(i, text)
    ensures r.Ok? && text != [] ==> forall i :: i in Window(items, page) && i.name.Some? && i.available == Some(true) && Mentions(i, text) ==> i in r.value
    ensures r.Ok? && text != [] ==> r.value == Filter(Window(items, page), KeptFor(text))
    ensures r.Err? <==> text != [] && exists k :: 0 <= k < |Window(items, page)| && Keep(Window(items, page)[k], text).Err?
    ensures r.Err? ==> r.error == NullDereference
    ensures r.Ok? ==> |r.value| <= page.size
  {
    var fetched := Window(items, page);
    var r := Search(fetched, text);
    if r.Ok? then
      KeptAreMentioned(r.value, text);
      KeepAllMentioned(fetched, text);
      if text != [] then FilteredInOrder(fetched, text); r else r
    else r
  }

  /** The last booking getItemById shows: the first row of the single-row
      page of findLastBookingsByItemId, i.e. the started booking of the item
      with the highest id. */
  function LastBooking(bookings: seq<Booking>, itemId: int, now: Time): (r: Option<Booking>)
    ensures r.Some? <==> exists b :: b in bookings && Started(itemId, now)(b)
    ensures r.Some? ==> (r.value in bookings && r.value.item.id == itemId && r.value.start < now
                         && forall c :: c in bookings && Started(itemId, now)(c) ==> c.id <= r.value.id)
  {
    LastIsHighestId(bookings, itemId, now);
    First(LastBookingsByItem(bookings, itemId, now, PageRequest(0, 1)))
  }

  /** The next booking getItemById shows: the first row of the single-row
      page of findNextBookingsByItemId, i.e. the booking of the item still to
      start with the lowest id. */
  function NextBooking(bookings: seq<Booking>, itemId: int, now: Time): (r: Option<Booking>)
    ensures r.Some? <==> exists b :: b in bookings && Upcoming(itemId, now)(b)
    ensures r.Some? ==> (r.value in bookings && r.value.item.id == itemId && now < r.value.start
                         && forall c :: c in bookings && Upcoming(itemId, now)(c) ==> r.value.id <= c.id)
  {
    NextIsLowestId(bookings, itemId, now);
    First(NextBookingsByItem(bookings, itemId, now, PageRequest(0, 1)))
  }

  /** A booking as the item view shows it, or null. */
  function Summary(b: Option<Booking>): Option<BookingDtoItem>
  {
    if b.Some? then Some(ServerBookingMapper.ToBookingDtoItem(b.value)) else None
  }

  /** The server's view of a found item: the last and the next booking for
      the owner only, and the item's comments for every caller. */
  function ItemView(bookings: seq<Booking>, comments: seq<Comment>, item: Item, userId: int, now: Time): (v: ItemByIdDto<BookingDtoItem>)
    ensures v.id == item.id && v.name == item.name && v.description == item.description && v.available == item.available
    ensures userId != item.owner.id ==> v.lastBooking.None? && v.nextBooking.None?
    ensures userId == item.owner.id ==> v.lastBooking == Summary(LastBooking(bookings, item.id, now))
    ensures userId == item.owner.id ==> v.nextBooking == Summary(NextBooking(bookings, item.id, now))
    ensures |v.comments| == |CommentsByItem(comments, item.id)|
  {
    var commentList := ItemMapper.ToCommentDtoCollection(CommentsByItem(comments, item.id));
    if userId == item.owner.id then
      ItemMapper.ToItemByIdDto(item, Summary(LastBooking(bookings, item.id, now)), Summary(NextBooking(bookings, item.id, now)), commentList)
    else ItemMapper.ToItemByIdDto(item, None, None, commentList)
  }

  /** There is a last booking exactly when one of the item's bookings has started. */
  lemma LastBookingExists(bookings: seq<Booking>, itemId: int, now: Time)
    ensures LastBooking(bookings, itemId, now).Some? <==> exists b :: b in bookings && b.item.id == itemId && b.start < now
  {
    var last := LastBooking(bookings, itemId, now);
    if last.Some? {
      var w := last.value;
      assert w in bookings && w.item.id == itemId && w.start < now;
    } else {
      forall b | b in bookings ensures !(b.item.id == itemId && b.start < now) {
        assert !Started(itemId, now)(b);
      }
    }
  }

  /** There is a next booking exactly when one of the item's bookings is still to start. */
  lemma NextBookingExists(bookings: seq<Booking>, itemId: int, now: Time)
    ensures NextBooking(bookings, itemId, now).Some? <==> exists b :: b in bookings && b.item.id == itemId && now < b.start
  {
    var next := NextBooking(bookings, itemId, now);
    if next.Some? {
      var w := next.value;
      assert w in bookings && w.item.id == itemId && now < w.start;
    } else {
      forall b | b in bookings ensures !(b.item.id == itemId && now < b.start) {
        assert !Upcoming(itemId, now)(b);
      }
    }
  }

  /** The owner sees a last booking exactly when one of the item's bookings has
      started, and a next booking exactly when one is still to start. */
  lemma OwnerSeesBookings(bookings: seq<Booking>, comments: seq<Comment>, item: Item, now: Time)
    ensures var v := ItemView(bookings, comments, item, item.owner.id, now);
      (v.lastBooking.Some? <==> exists b :: b in bookings && b.item.id == item.id && b.start < now)
      && (v.nextBooking.Some? <==> exists b :: b in bookings && b.item.id == item.id && now < b.start)
  {
    LastBookingExists(bookings, item.id, now);
    NextBookingExists(bookings, item.id, now);
  }


  /** Every caller sees the same comments; only the bookings depend on who asks. */
  lemma CommentsForEveryone(bookings: seq<Booking>, comments: seq<Comment>, item: Item, userId: int, otherId: int, now: Time)
    ensures ItemView(bookings, comments, item, userId, now).comments == ItemView(bookings, comments, item, otherId, now).comments
    ensures ItemView(bookings, comments, item, userId, now).comments
      == ItemMapper.ToCommentDtoCollection(CommentsByItem(comments, item.id))
  {
  }

  /** getItemById: an unknown item is NOT_FOUND; otherwise the caller's view of it. */
  function GetItemById(items: seq<Item>, bookings: seq<Booking>, comments: seq<Comment>, itemId: int, userId: int, now: Time): (r: Result<ItemByIdDto<BookingDtoItem>>)
    ensures r.Err? <==> Find(items, ItemKey, itemId).None?
    ensures r.Err? ==> r.error == NotFound(ItemEntity) && StatusOf(r.error) == HttpNotFound
    ensures r.Ok? ==> r.value.id == itemId
    ensures r.Ok? ==> r.value == ItemView(bookings, comments, Find(items, ItemKey, itemId).value, userId, now)
  {
    match Find(items, ItemKey, itemId)
    case None => Err(NotFound(ItemEntity))
    case Some(item) => Ok(ItemView(bookings, comments, item, userId, now))
  }

  /** getItemById(item.getId(), userId) over a list of stored items; it never throws, as every item is found. */
  function ViewsOf(items: seq<Item>, bookings: seq<Booking>, comments: seq<Comment>, listed: seq<Item>, userId: int, now: Time): (r: seq<ItemByIdDto<BookingDtoItem>>)
    requires forall i :: i in listed ==> i in items
    ensures |r| == |listed|
    ensures forall k :: 0 <= k < |listed| ==> GetItemById(items, bookings, comments, listed[k].id, userId, now) == Ok(r[k])
  {
    assert forall k :: 0 <= k < |listed| ==> listed[k] in items && ItemKey(listed[k]) == listed[k].id;
    seq(|listed|, k requires 0 <= k < |listed| =>
      assert listed[k] in listed;
      GetItemById(items, bookings, comments, listed[k].id, userId, now).value)
  }


  /** getAllItemsByUser: one view per item of the owner's page, in page order. */
  function GetAllItemsByUser(items: seq<Item>, bookings: seq<Booking>, comments: seq<Comment>, userId: int, page: PageRequest, now: Time): (r: seq<ItemByIdDto<BookingDtoItem>>)
    ensures |r| == |ItemsByOwner(items, userId, page)| && |r| <= page.size
    ensures forall k :: 0 <= k < |r| ==> r[k].id == ItemsByOwner(items, userId, page)[k].id
  {
    ViewsOf(items, bookings, comments, ItemsByOwner(items, userId, page), userId, now)
  }

  /** With unique item ids, each entry of getAllItemsByUser is the owner's
      view of that very item, so its last and next booking are shown. */
  lemma OwnerSeesOwnBookings(items: seq<Item>, bookings: seq<Booking>, comments: seq<Comment>, userId: int, page: PageRequest, now: Time)
    requires UniqueKeys(items, ItemKey)
    ensures var listed := ItemsByOwner(items, userId, page);
      var r := GetAllItemsByUser(items, bookings, comments, userId, page, now);
      forall k :: 0 <= k < |r| ==>
        r[k] == ItemView(bookings, comments, listed[k], userId, now)
        && (r[k].lastBooking.Some? <==> exists b :: b in bookings && Started(listed[k].id, now)(b))
  {
    var listed := ItemsByOwner(items, userId, page);
    var r := GetAllItemsByUser(items, bookings, comments, userId, page, now);
    forall k | 0 <= k < |r|
      ensures r[k] == ItemView(bookings, comments, listed[k], userId, now)
      ensures r[k].lastBooking.Some? <==> exists b :: b in bookings && Started(listed[k].id, now)(b)
    {
      var item := listed[k];
      assert item in listed;
      FindUnique(items, ItemKey, item);
      assert GetItemById(items, bookings, comments, item.id, userId, now) == Ok(r[k]);
      assert item.owner.id == userId;
    }
  }

  // ---------------------------------------------------------------- the service object

  class ItemService {
    /** The last ids handed out by generateItemId and generateCommentId. */
    var itemId: int
    var commentId: int
    const db: Database

    /** The database is consistent and no stored item or comment has an id above its counter. */
    ghost predicate Valid()
      reads this, db
    {
      db.Valid() && 0 <= itemId && 0 <= commentId
      && (forall i :: i in db.items ==> i.id <= itemId)
      && (forall c :: c in db.comments ==> c.id <= commentId)
    }

    constructor (db: Database)
      requires db.Valid() && db.items == [] && db.comments == []
      ensures Valid() && this.db == db && itemId == 0 && commentId == 0
    {
      this.db := db;
      itemId, commentId := 0, 0;
    }

    /** generateItemId: 1, 2, 3, ... in call order. */
    method GenerateItemId() returns (id: int)
      modifies this
      ensures itemId == old(itemId) + 1 && id == itemId && commentId == old(commentId)
    {
      itemId := itemId + 1;
      id := itemId;
    }

    /** generateCommentId: 1, 2, 3, ... in call order. */
    method GenerateCommentId() returns (id: int)
      modifies this
      ensures commentId == old(commentId) + 1 && id == commentId && itemId == old(itemId)
    {
      commentId := commentId + 1;
      id := commentId;
    }

    /** createComment: on success exactly one comment is appended; on failure nothing changes. */
    method CreateComment(authorId: int, itemId': int, dto: CommentDtoIn, now: Time) returns (r: Result<Comment>)
      requires Valid()
      modifies this, db
      ensures Valid()
      ensures r == CommentResult(old(db.users), old(db.items), old(db.bookings), authorId, itemId', dto, now, old(commentId) + 1)
      ensures r.Ok? ==> commentId == old(commentId) + 1 && db.comments == old(db.comments) + [r.value]
      ensures r.Err? ==> commentId == old(commentId) && db.comments == old(db.comments)
      ensures itemId == old(itemId)
      ensures db.users == old(db.users) && db.items == old(db.items) && db.bookings == old(db.bookings) && db.requests == old(db.requests)
    {
      var author := Find(db.users, UserKey, authorId);
      if author.None? {
        return Err(Missing(UserEntity));
      }
      var item := Find(db.items, ItemKey, itemId');
      if item.None? {
        return Err(Missing(ItemEntity));
      }
      if dto.text == [] {
        return Err(EmptyComment);
      }
      var booking := FindBookerByItemId(db.bookings, itemId', authorId, now);
      if booking.Err? {
        return Err(booking.error);
      }
      if booking.value.None? {
        return Err(NotABooker);
      }
      var id := GenerateCommentId();
      var comment := Comment(id, dto.text, item.value, author.value, now);
      db.SaveComment(comment);
      r := Ok(comment);
    }

    /** createItem: on success exactly one item is appended; on failure nothing changes. */
    method CreateItem(userId: int, dto: ItemDto) returns (r: Result<Item>)
      requires Valid()
      modifies this, db
      ensures Valid()
      ensures r == NewItemResult(old(db.users), old(db.requests), userId, dto, old(itemId) + 1)
      ensures r.Ok? ==> itemId == old(itemId) + 1 && db.items == old(db.items) + [r.value]
      ensures r.Err? ==> itemId == old(itemId) && db.items == old(db.items)
      ensures commentId == old(commentId)
      ensures db.users == old(db.users) && db.bookings == old(db.bookings) && db.comments == old(db.comments) && db.requests == old(db.requests)
    {
      var owner := Find(db.users, UserKey, userId);
      if owner.None? {
        return Err(Missing(UserEntity));
      }
      var valid := ValidateItem(dto);
      if valid.Fail? {
        return Err(valid.error);
      }
      var request := RequestOf(db.requests, dto);
      if request.Err? {
        return Err(request.error);
      }
      var id := GenerateItemId();
      var item := ToItem(id, owner.value, dto, request.value);
      db.SaveItem(item);
      r := Ok(item);
    }

    /** updateItem: on success the stored item is replaced by the merged one; on failure nothing changes. */
    method UpdateItem(userId: int, itemId': int, dto: ItemDto) returns (r: Result<Item>)
      requires Valid()
      modifies db
      ensures Valid()
      ensures r == UpdateResult(old(db.users), old(db.items), old(db.requests), userId, itemId', dto)
      ensures r.Ok? ==> db.items == Upsert(old(db.items), r.value, ItemKey)
      ensures r.Err? ==> db.items == old(db.items)
      ensures db.users == old(db.users) && db.bookings == old(db.bookings) && db.comments == old(db.comments) && db.requests == old(db.requests)
    {
      var owner := Find(db.users, UserKey, userId);
      if owner.None? {
        return Err(Missing(UserEntity));
      }
      var stored := Find(db.items, ItemKey, itemId');
      if stored.None? {
        return Err(Missing(ItemEntity));
      }
      if stored.value.owner.id != userId {
        return Err(NotItemOwner);
      }
      var patch := dto;
      if patch.available.None? {
        patch := patch.(available := stored.value.available);
      }
      if patch.name.None? {
        patch := patch.(name := stored.value.name);
      }
      if patch.description.None? {
        patch := patch.(description := stored.value.description);
      }
      assert patch == Merge(dto, stored.value);
      var request := RequestOf(db.requests, patch);
      if request.Err? {
        return Err(request.error);
      }
      var item := ToItem(itemId', owner.value, patch, request.value);
      db.SaveItem(item);
      r := Ok(item);
    }

    /** deleteItem: drops the item with that id, if any. */
    method DeleteItem(itemId': int)
      requires Valid()
      modifies db
      ensures Valid()
      ensures db.items == Filter(old(db.items), KeyIsNot(ItemKey, itemId'))
      ensures db.users == old(db.users) && db.bookings == old(db.bookings) && db.comments == old(db.comments) && db.requests == old(db.requests)
    {
      db.DeleteItemById(itemId');
    }
  }
}
