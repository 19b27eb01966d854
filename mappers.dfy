/** The static mappers between entities and transfer objects. */

/** The monolith's BookingMapper: item and booker flattened to their ids. */
module BookingMapper {
  import opened Domain

  /** toBookingDto. */
  function ToBookingDto(b: Booking): (d: BookingDto)
  {
    BookingDto(b.id, b.start, b.end, b.item.id, b.status, b.booker.id)
  }

  /** toBooking: the given id, booker and item with the request's dates and status;
      mapping the result back gives the same id, dates and status and the ids of item and booker. */
  function ToBooking(bookingId: int, booker: User, item: Item, dto: BookingDtoIn): (b: Booking)
    ensures ToBookingDto(b) == BookingDto(bookingId, dto.start, dto.end, item.id, dto.status, booker.id)
    ensures b.item == item && b.booker == booker
  {
    Booking(bookingId, dto.start, dto.end, item, booker, dto.status)
  }

  /** toBookingDtoCollection: one transfer object per booking, in order. */
  function ToBookingDtoCollection(bs: seq<Booking>): (r: seq<BookingDto>)
    ensures |r| == |bs|
    ensures forall i :: 0 <= i < |bs| ==> r[i] == ToBookingDto(bs[i])
  {
    if bs == [] then [] else [ToBookingDto(bs[0])] + ToBookingDtoCollection(bs[1..])
  }
}

/** The server's BookingMapper: the item carried whole, the booker whole or as an id. */
module ServerBookingMapper {
  import opened Domain

  /** toBookingDto: every field copied. */
  function ToBookingDto(b: Booking): (d: BookingDtoFull)
  {
    BookingDtoFull(b.id, b.start, b.end, b.item, b.status, b.booker)
  }

  /** toBookingDtoItem: the same fields as toBookingDto with the booker replaced by its id. */
  function ToBookingDtoItem(b: Booking): (d: BookingDtoItem)
    ensures var full := ToBookingDto(b);
      d == BookingDtoItem(full.id, full.start, full.end, full.item, full.status, full.booker.id)
  {
    BookingDtoItem(b.id, b.start, b.end, b.item, b.status, b.booker.id)
  }

  /** toBooking; mapping the result back gives the inputs. */
  function ToBooking(bookingId: int, booker: User, item: Item, dto: BookingDtoIn): (b: Booking)
    ensures ToBookingDto(b) == BookingDtoFull(bookingId, dto.start, dto.end, item, dto.status, booker)
  {
    Booking(bookingId, dto.start, dto.end, item, booker, dto.status)
  }

  /** toBookingDtoCollection: one transfer object per booking, in order. */
  function ToBookingDtoCollection(bs: seq<Booking>): (r: seq<BookingDtoFull>)
    ensures |r| == |bs|
    ensures forall i :: 0 <= i < |bs| ==> r[i] == ToBookingDto(bs[i])
  {
    if bs == [] then [] else [ToBookingDto(bs[0])] + ToBookingDtoCollection(bs[1..])
  }
}

/** The monolith's item.mapper.ItemMapper. */
module ItemMapper {
  import opened Base
  import opened Domain

  /** toCommentDto: the author is shown by name. */
  function ToCommentDto(c: Comment): (d: CommentDtoOut)
  {
    CommentDtoOut(c.id, c.text, c.author.name, c.created)
  }

  /** toCommentDtoOutCollection: one transfer object per comment, in order. */
  function ToCommentDtoCollection(cs: seq<Comment>): (r: seq<CommentDtoOut>)
    ensures |r| == |cs|
    ensures forall i :: 0 <= i < |cs| ==> r[i] == ToCommentDto(cs[i])
  {
    if cs == [] then [] else [ToCommentDto(cs[0])] + ToCommentDtoCollection(cs[1..])
  }

  /** toItemDto: the builder leaves requestId unset. */
  function ToItemDto(i: Item): (d: ItemDto)
  {
    ItemDto(i.id, i.name, i.description, i.available, None)
  }

  /** toItemDtoCollection: one transfer object per item, in order. */
  function ToItemDtoCollection(items: seq<Item>): (r: seq<ItemDto>)
    ensures |r| == |items|
    ensures forall i :: 0 <= i < |items| ==> r[i] == ToItemDto(items[i])
  {
    if items == [] then [] else [ToItemDto(items[0])] + ToItemDtoCollection(items[1..])
  }

  /** toItemByIdDto: the item's own fields next to the given bookings and comments. */
  function ToItemByIdDto<B>(i: Item, lastBooking: Option<B>, nextBooking: Option<B>, comments: seq<CommentDtoOut>): (d: ItemByIdDto<B>)
  {
    ItemByIdDto(i.id, i.name, i.description, i.available, lastBooking, nextBooking, comments)
  }

  /** toItem: the given id and owner with the transfer object's fields; no request.
      Mapping the item back restores the transfer object's fields under the given id. */
  function ToItem(itemId: int, owner: User, dto: ItemDto): (i: Item)
    ensures i.owner == owner && i.request == None
    ensures ToItemDto(i) == dto.(id := itemId, requestId := None)
  {
    Item(itemId, dto.name, dto.description, dto.available, owner, None)
  }

  /** An item without a request is rebuilt exactly from its transfer object, id and owner. */
  lemma ItemRoundTrip(i: Item)
    requires i.request == None
    ensures ToItem(i.id, i.owner, ToItemDto(i)) == i
  {
  }
}

/** The monolith's older item.ItemMapper, whose collection mapping is a loop. */
module LegacyItemMapper {
  import opened Domain
  import ItemMapper

  /** toItemDtoCollection: appends one transfer object per item to a fresh list. */
  method ToItemDtoCollection(items: seq<Item>) returns (itemsDto: seq<ItemDto>)
    ensures itemsDto == ItemMapper.ToItemDtoCollection(items)
  {
    itemsDto := [];
    for k := 0 to |items|
      invariant |itemsDto| == k
      invariant forall j :: 0 <= j < k ==> itemsDto[j] == ItemMapper.ToItemDto(items[j])
    {
      itemsDto := itemsDto + [ItemMapper.ToItemDto(items[k])];
    }
  }
}

/** user.mapper.UserMapper; the older user.UserMapper has the same toUserDto and toUser. */
module UserMapper {
  import opened Domain

  /** toUserDto: every field copied, so toUser gives the user back. */
  function ToUserDto(u: User): (d: UserDto)
    ensures ToUser(d) == u
  {
    UserDto(u.id, u.name, u.email)
  }

  /** toUser: every field copied, so toUserDto gives the transfer object back. */
  function ToUser(d: UserDto): (u: User)
  {
    User(d.id, d.name, d.email)
  }

  /** Round-trip from the transfer object's side. */
  lemma DtoRoundTrip(d: UserDto)
    ensures ToUserDto(ToUser(d)) == d
  {
  }

  /** toUserDtoCollection: one transfer object per user, in order. */
  function ToUserDtoCollection(us: seq<User>): (r: seq<UserDto>)
    ensures |r| == |us|
    ensures forall i :: 0 <= i < |us| ==> r[i] == ToUserDto(us[i])
  {
    if us == [] then [] else [ToUserDto(us[0])] + ToUserDtoCollection(us[1..])
  }
}

/** The older user.UserMapper, whose collection mapping is a loop. */
module LegacyUserMapper {
  import opened Domain
  import UserMapper

  /** toUserDtoCollection: appends one transfer object per user to a fresh list. */
  method ToUserDtoCollection(users: seq<User>) returns (usersDto: seq<UserDto>)
    ensures usersDto == UserMapper.ToUserDtoCollection(users)
  {
    usersDto := [];
    for k := 0 to |users|
      invariant |usersDto| == k
      invariant forall j :: 0 <= j < k ==> usersDto[j] == UserMapper.ToUserDto(users[j])
    {
      usersDto := usersDto + [UserMapper.ToUserDto(users[k])];
    }
  }
}

/** The server's ItemRequestMapper. */
module ItemRequestMapper {
  import opened Domain

  /** toItemRequestByIdDto: the request's fields next to the given items, unchanged. */
  function ToItemRequestByIdDto(r: ItemRequest, items: seq<ItemDto>): (d: ItemRequestByIdDto)
  {
    ItemRequestByIdDto(r.id, r.description, r.created, items)
  }

  /** toItemRequestDto: every field copied. */
  function ToItemRequestDto(r: ItemRequest): (d: ItemRequestDto)
  {
    ItemRequestDto(r.id, r.description, r.requester, r.created)
  }

  /** toItemRequest: the given id, requester and timestamp with the incoming description;
      mapping it to a transfer object reproduces the inputs. */
  function ToItemRequest(id: int, user: User, dto: ItemRequestDtoIn, now: Time): (r: ItemRequest)
    ensures ToItemRequestDto(r) == ItemRequestDto(id, dto.description, user, now)
  {
    ItemRequest(id, dto.description, user, now)
  }
}
