/** The entities and transfer objects of the item-lending service.

    Entities are values here: a Booking holds a copy of its Item and of its
    booker rather than a reference to a shared row. Java fields that may be
    null and that the code tests or dereferences are `Option`s. */
module Domain {
  import opened Base

  /** LocalDateTime; the code only compares timestamps. */
  type Time = int

  /** BookingStatus: CANCELED is declared but never assigned by any service. */
  datatype BookingStatus = Waiting | Approved | Rejected | Canceled

  datatype User = User(id: int, name: Option<string>, email: Option<string>)

  datatype ItemRequest = ItemRequest(id: int, description: Option<string>, requester: User, created: Time)

  datatype Item = Item(
    id: int,
    name: Option<string>,
    description: Option<string>,
    available: Option<bool>,
    owner: User,
    request: Option<ItemRequest>)

  datatype Booking = Booking(id: int, start: Time, end: Time, item: Item, booker: User, status: BookingStatus)

  datatype Comment = Comment(id: int, text: string, item: Item, author: User, created: Time)

  // ---- transfer objects ----

  datatype UserDto = UserDto(id: int, name: Option<string>, email: Option<string>)

  /** ItemDto; `requestId` exists only in the server snapshot (null elsewhere). */
  datatype ItemDto = ItemDto(
    id: int,
    name: Option<string>,
    description: Option<string>,
    available: Option<bool>,
    requestId: Option<int>)

  /** BookingDtoIn: the incoming request; its status is overwritten with WAITING before use. */
  datatype BookingDtoIn = BookingDtoIn(start: Time, end: Time, itemId: int, status: BookingStatus)

  /** The monolith's BookingDto: item and booker flattened to their ids. */
  datatype BookingDto = BookingDto(id: int, start: Time, end: Time, itemId: int, status: BookingStatus, bookerId: int)

  /** The server's BookingDto: item and booker carried whole. */
  datatype BookingDtoFull = BookingDtoFull(id: int, start: Time, end: Time, item: Item, status: BookingStatus, booker: User)

  /** The server's BookingDtoItem: item carried whole, booker flattened to its id. */
  datatype BookingDtoItem = BookingDtoItem(id: int, start: Time, end: Time, item: Item, status: BookingStatus, bookerId: int)

  datatype CommentDtoIn = CommentDtoIn(text: string)

  datatype CommentDtoOut = CommentDtoOut(id: int, text: string, authorName: Option<string>, created: Time)

  /** ItemByIdDto, parameterised by the booking summary the snapshot uses. */
  datatype ItemByIdDto<B> = ItemByIdDto(
    id: int,
    name: Option<string>,
    description: Option<string>,
    available: Option<bool>,
    lastBooking: Option<B>,
    nextBooking: Option<B>,
    comments: seq<CommentDtoOut>)

  datatype ItemRequestDtoIn = ItemRequestDtoIn(description: Option<string>)

  datatype ItemRequestDto = ItemRequestDto(id: int, description: Option<string>, requester: User, created: Time)

  datatype ItemRequestByIdDto = ItemRequestByIdDto(id: int, description: Option<string>, created: Time, items: seq<ItemDto>)

  // ---- key extractors used by the store and the queries ----

  function UserKey(u: User): int { u.id }
  function ItemKey(i: Item): int { i.id }
  function BookingKey(b: Booking): int { b.id }
  function CommentKey(c: Comment): int { c.id }
  function RequestKey(r: ItemRequest): int { r.id }
  function BookingEnd(b: Booking): int { b.end }
  function BookingStart(b: Booking): int { b.start }
  function NegatedBookingKey(b: Booking): int { -b.id }
}
